/** Small trees at which a revocation is not answered or leaves an entry behind, or just does not. */
module RevocationTrees {
  import opened Common
  import opened CapTree
  import opened RevocationWave
  import opened RevocationTheorems
  import opened RevocationSettled
  import opened RevocationOrder
  import opened RevocationEvents
  import opened RevocationRaces
  import opened RevocationOvertaking
  import opened RevocationSchedules
  import opened RevocationLeftovers

  // -------------------------------------------------------------- never answered

  /**
   Capability 0 and its child 1 live on kernel 0; the children 2 and 3 of 1 live on
   kernel 1.
   */
  const SPLIT: RawTree := RawTree(0,
    map[0 := [1], 1 := [2, 3], 2 := [], 3 := []],
    map[1 := 0, 2 := 1, 3 := 1],
    map[0 := 0, 1 := 0, 2 := 1, 3 := 1],
    map[0 := 2, 1 := 1, 2 := 0, 3 := 0])

  lemma SplitValid()
    ensures SPLIT.Valid()
  {
    var t := SPLIT;
    assert t.kids.Keys == t.home.Keys == t.height.Keys == {0, 1, 2, 3};
    assert t.parent.Keys == {1, 2, 3};
    assert t.kids[0] == [1] && t.kids[1] == [2, 3] && t.kids[2] == [] && t.kids[3] == [];
  }

  lemma SplitAwaits(t: Tree)
    requires t == SPLIT
    ensures !Responsive(t)
  {
    assert t.kids[1] == [2, 3] && t.parent[2] == t.parent[3] == 1 && t.parent[1] == 0;
    assert Remote(t, 2) && Remote(t, 3) && Local(t, 1);
    assert AwaitUpTo(t, 1, 0) == 0;
    assert AwaitUpTo(t, 1, 1) == 1;
    assert Await(t, 1) == 2;
  }

  /**
   Two remote capabilities below one local child are enough for the caller to sleep on: in
   every run that ends, and there are such runs on ordered channels.
   */
  lemma NeverAnswered()
    ensures SPLIT.Valid()
    ensures forall run: seq<Wave> :: Run(SPLIT, run) && Quiet(run[|run| - 1])
                          ==> run[|run| - 1].live == {} && run[|run| - 1].thread.Sleeping?
    ensures exists run :: OrderedRun(SPLIT, run) && Quiet(Last(run).wave)
  {
    SplitValid();
    var t: Tree := SPLIT;
    SplitAwaits(t);
    forall run: seq<Wave> | Run(t, run) && Quiet(run[|run| - 1])
      ensures run[|run| - 1].live == {} && run[|run| - 1].thread.Sleeping?
    {
      AnsweredIffResponsive(t, run);
    }
    var run := SomeQuietRun(t);
  }

  // ------------------------------------------------------------ always left behind

  /** A chain: 0 on kernel 0, 1 and 2 on kernel 1, and 3 on kernel 2. */
  const CHAIN: RawTree := RawTree(0,
    map[0 := [1], 1 := [2], 2 := [3], 3 := []],
    map[1 := 0, 2 := 1, 3 := 2],
    map[0 := 0, 1 := 1, 2 := 1, 3 := 2],
    map[0 := 3, 1 := 2, 2 := 1, 3 := 0])

  lemma ChainValid()
    ensures CHAIN.Valid()
  {
    var t := CHAIN;
    assert t.kids.Keys == t.home.Keys == t.height.Keys == {0, 1, 2, 3};
    assert t.parent.Keys == {1, 2, 3};
    assert t.kids[0] == [1] && t.kids[1] == [2] && t.kids[2] == [3] && t.kids[3] == [];
  }

  lemma {:induction false} ChainAwaits(t: Tree)
    requires t == CHAIN
    ensures Await(t, 1) == Await(t, 2) == 1 && Responsive(t) && NoRemoteKid(t, 1)
  {
    hide RawTree.Valid;
    assert t.kids[1] == [2] && t.kids[2] == [3] && t.parent[1] == 0 && t.parent[2] == 1 && t.parent[3] == 2;
    assert Remote(t, 1) && Local(t, 2) && Remote(t, 3);
    assert AwaitUpTo(t, 2, 0) == 0 && AwaitUpTo(t, 1, 0) == 0;
  }

  /** The chain is answered, and the entry of 1 is left behind, in every run. */
  lemma ChainLeaves()
    ensures CHAIN.Valid()
    ensures forall run: seq<Wave> :: Run(CHAIN, run) && Quiet(run[|run| - 1])
                          ==> run[|run| - 1].thread.Returned? && 1 in run[|run| - 1].entries
    ensures exists run :: OrderedRun(CHAIN, run) && Quiet(Last(run).wave)
  {
    ChainValid();
    var t: Tree := CHAIN;
    ChainAwaits(t);
    forall run: seq<Wave> | Run(t, run) && Quiet(run[|run| - 1])
      ensures run[|run| - 1].thread.Returned? && 1 in run[|run| - 1].entries
    {
      AnsweredIffResponsive(t, run);
      EveryRunLeaves(t, run, 1);
    }
    var run := SomeQuietRun(t);
  }

  // -------------------------------------------------- left behind or not, by order

  /**
   Capability 1 and its child 2 are on kernel 1, the child 3 of 2 and the other child 4
   of 1 on kernel 2. `first` and `second` are the children of 1 in their order.
   */
  function Fork(first: Id, second: Id): RawTree {
    RawTree(0,
      map[0 := [1], 1 := [first, second], 2 := [3], 3 := [], 4 := []],
      map[1 := 0, 2 := 1, 3 := 2, 4 := 1],
      map[0 := 0, 1 := 1, 2 := 1, 3 := 2, 4 := 2],
      map[0 := 3, 1 := 2, 2 := 1, 3 := 0, 4 := 0])
  }

  /** The same, field by field. */
  ghost predicate IsFork(t: RawTree, first: Id, second: Id) {
    && ((first == 2 && second == 4) || (first == 4 && second == 2))
    && t.root == 0 && t.kids.Keys == t.home.Keys == t.height.Keys == {0, 1, 2, 3, 4} && t.parent.Keys == {1, 2, 3, 4}
    && t.kids[0] == [1] && t.kids[1] == [first, second] && t.kids[2] == [3] && t.kids[3] == [] && t.kids[4] == []
    && t.parent[1] == 0 && t.parent[2] == 1 && t.parent[3] == 2 && t.parent[4] == 1
    && t.home[0] == 0 && t.home[1] == 1 && t.home[2] == 1 && t.home[3] == 2 && t.home[4] == 2
    && t.height[0] == 3 && t.height[1] == 2 && t.height[2] == 1 && t.height[3] == 0 && t.height[4] == 0
  }

  lemma ForkIs(first: Id, second: Id)
    requires (first == 2 && second == 4) || (first == 4 && second == 2)
    ensures IsFork(Fork(first, second), first, second)
  {
    var t := Fork(first, second);
    assert t.kids.Keys == {0, 1, 2, 3, 4} && t.home.Keys == {0, 1, 2, 3, 4} && t.height.Keys == {0, 1, 2, 3, 4};
    assert t.parent.Keys == {1, 2, 3, 4};
  }

  lemma ForkValid(t: RawTree, first: Id, second: Id)
    requires IsFork(t, first, second)
    ensures t.Valid()
  {
    assert t.parent.Keys == t.kids.Keys - {t.root};
    ForkDown(t, first, second);
    ForkUp(t, first, second);
  }

  lemma ForkDown(t: RawTree, first: Id, second: Id)
    requires IsFork(t, first, second)
    ensures forall n, i | n in t.kids && 0 <= i < |t.kids[n]| ::
              t.kids[n][i] in t.parent && t.parent[t.kids[n][i]] == n
  {
    forall n, i | n in t.kids && 0 <= i < |t.kids[n]|
      ensures t.kids[n][i] in t.parent && t.parent[t.kids[n][i]] == n
    {
      assert n == 0 || n == 1 || n == 2 || n == 3 || n == 4;
    }
  }

  lemma ForkUp(t: RawTree, first: Id, second: Id)
    requires IsFork(t, first, second)
    ensures forall k | k in t.parent ::
              t.parent[k] in t.kids && k in t.kids[t.parent[k]] && t.height[k] < t.height[t.parent[k]]
  {
    assert first in [first, second] && second in [first, second];
    forall k | k in t.parent
      ensures t.parent[k] in t.kids && k in t.kids[t.parent[k]] && t.height[k] < t.height[t.parent[k]]
    {
      assert k == 1 || k == 2 || k == 3 || k == 4;
    }
  }

  lemma {:induction false} ForkEdges(t: Tree, first: Id, second: Id)
    requires IsFork(t, first, second)
    ensures Remote(t, 1) && Local(t, 2) && Remote(t, 3) && Remote(t, 4) && Top(t, 1) == 1
    ensures RemoteEdges(t, 1) == {3, 4} && RemoteEdges(t, 2) == {3} && RemoteEdges(t, 3) == {}
  {
    hide RawTree.Valid;
    ForkUnder(t, first, second);
    hide Under;
  }

  lemma {:induction false} ForkUnder(t: Tree, first: Id, second: Id)
    requires IsFork(t, first, second)
    ensures !Under(t, 0, 1) && !Under(t, 0, 2) && !Under(t, 1, 2) && Under(t, 1, 1) && Under(t, 2, 1) && Under(t, 2, 2)
    ensures !Under(t, 0, 3) && !Under(t, 1, 3) && !Under(t, 2, 3)
  {
    hide RawTree.Valid;
  }

  lemma ForkBeside(t: Tree, first: Id, second: Id)
    requires IsFork(t, first, second)
    ensures Beside(t, 1) == {4}
  {
    hide RawTree.Valid;
    assert !Above(t, 0, 4);
    assert !Above(t, 1, 4);
    assert !Above(t, 2, 4);
    assert !Above(t, 3, 4) && Above(t, 4, 4);
    assert Remote(t, 4) && Local(t, 2);
  }

  lemma {:induction false} ForkAwaits(t: Tree, first: Id, second: Id)
    requires IsFork(t, first, second)
    ensures Await(t, 1) == 2 && Await(t, 2) == 1 && Await(t, 3) == 0 && Await(t, 4) == 0 && Responsive(t)
  {
    hide RawTree.Valid;
    ForkEdges(t, first, second);
    assert AwaitUpTo(t, 4, 0) == 0;
    AwaitCountsRemoteEdges(t, 1);
    AwaitCountsRemoteEdges(t, 2);
    AwaitCountsRemoteEdges(t, 3);
    hide RemoteEdges;
  }

  lemma {:induction false} ForkOrder(t: Tree, first: Id, second: Id)
    requires IsFork(t, first, second)
    ensures Before(Order(t, 1), 4, 3) <==> first == 4
  {
    hide RawTree.Valid;
    assert Remote(t, 3) && Remote(t, 4) && Local(t, 2);
    assert OrderUpTo(t, 2, 0) == [] && Order(t, 2) == [3];
    assert OrderUpTo(t, 1, 0) == [];
    assert OrderUpTo(t, 1, 1) == if first == 4 then [4] else [3];
    assert Order(t, 1) == if first == 4 then [4, 3] else [3, 4];
    var ids := Order(t, 1);
    hide Order;
    assert first == 4 ==> ids[0] == 4 && ids[1] == 3;
  }

  lemma {:induction false} ForkChannels(t: Tree, first: Id, second: Id)
    requires IsFork(t, first, second)
    ensures Channel(t, Revoke(3)) == Channel(t, Revoke(4)) == (1, 2)
    ensures Channel(t, Report(t, 3)) == Channel(t, Report(t, 4)) == (2, 1)
  {
    hide RawTree.Valid;
  }

  /** The fork behind what is asked for: 4 is held back with 3, if it comes second. */
  lemma ForkBehind(t: Tree, first: Id, second: Id)
    requires IsFork(t, first, second)
    ensures Behind(t, 1, 3) == if first == 4 then {} else {Revoke(4), Report(t, 4)}
  {
    hide RawTree.Valid, Order, Beside, RemoteEdges, Channel, Before;
    ForkEdges(t, first, second);
    ForkBeside(t, first, second);
    ForkOrder(t, first, second);
    ForkChannels(t, first, second);
    assert Calls(t, 1) == {Revoke(4), Report(t, 4)};
    assert Above(t, 4, 4);
  }

  lemma {:induction false} ForkReaches(t: Tree, first: Id, second: Id)
    requires IsFork(t, first, second)
    ensures Reaches(t, Behind(t, 1, 3), 3, {}) <==> first == 4
  {
    ForkAwaits(t, first, second);
    ForkBehind(t, first, second);
    ForkChannels(t, first, second);
    ForkEdges(t, first, second);
    hide Behind, Top;
    assert Above(t, 4, 4);
    if first == 2 {
      var held := Behind(t, 1, 3);
      assert Needs(t, Report(t, 4), Report(t, 4));
      assert Report(t, 4) in Rest(t, held, (2, 1));
    }
  }

  lemma ForkOutlasts(t: Tree, first: Id, second: Id)
    requires IsFork(t, first, second)
    ensures Outlasts(t, 1) <==> first == 4
    ensures !Outlasts(t, 2)
  {
    hide RawTree.Valid, Reaches, Behind, RemoteEdges;
    ForkEdges(t, first, second);
    ForkReaches(t, first, second);
  }

  /**
   Where the request below the local child goes out before the one beside it, every
   ordered run cleans up, though the tree is not tidy; in the other order of the same two
   children, an ordered run leaves the entry of 1 behind.
   */
  lemma OrderOfKidsDecides()
    ensures Fork(2, 4).Valid() && Fork(4, 2).Valid()
    ensures !Tidy(Fork(2, 4)) && NothingStays(Fork(2, 4))
    ensures CanStay(Fork(4, 2), 1)
  {
    ForkIs(2, 4);
    ForkIs(4, 2);
    hide Fork;
    ForkValid(Fork(2, 4), 2, 4);
    ForkValid(Fork(4, 2), 4, 2);
    ForkCleansUp(Fork(2, 4));
    ForkCanStay(Fork(4, 2));
  }

  lemma ForkCleansUp(t: Tree)
    requires IsFork(t, 2, 4)
    ensures !Tidy(t) && NothingStays(t)
  {
    hide RawTree.Valid, NothingStays, Outlasts, Await, RemoteEdges, Top;
    ForkEdges(t, 2, 4);
    ForkAwaits(t, 2, 4);
    ForkOutlasts(t, 2, 4);
    NothingStaysIff(t);
  }

  lemma ForkCanStay(t: Tree)
    requires IsFork(t, 4, 2)
    ensures CanStay(t, 1)
  {
    ForkAwaits(t, 4, 2);
    ForkOutlasts(t, 4, 2);
    hide CanStay, Outlasts, Settles;
    StaysIff(t, 1);
  }
}
