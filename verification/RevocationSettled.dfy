/**
 Which revocations complete, by the tree alone, and what that makes of the traffic at the
 end.
 */
module RevocationSettled {
  import opened Common
  import opened CapTree
  import opened RevocationWave
  import opened RevocationInvariant
  import opened RevocationTheorems

  /** Below `n`, in the whole distributed subtree, every local child has at most one remote edge. */
  predicate Settles(t: Tree, n: Id) {
    forall k | k in t.parent && Local(t, k) && Above(t, t.parent[k], n) :: Await(t, k) <= 1
  }

  lemma {:induction false} SettlesBelow(t: Tree, n: Id, k: Id)
    requires Settles(t, n) && n in t.kids && k in t.kids && Above(t, k, n)
    ensures Settles(t, k)
  {
    forall l | l in t.parent && Local(t, l) && Above(t, t.parent[l], k) ensures Await(t, l) <= 1 {
      AboveAbove(t, t.parent[l], k, n);
    }
  }

  lemma ResponsiveSettles(t: Tree)
    ensures Responsive(t) <==> Settles(t, t.root)
  {
    forall k | k in t.parent ensures Above(t, t.parent[k], t.root) {
      RootAbove(t, t.parent[k]);
    }
  }

  lemma {:induction false} CompletedBelow(t: Tree, s: Wave, n: Id, p: Id)
    requires Inv(t, s) && p in s.completed && n in t.kids && Above(t, n, p)
    ensures n in s.completed
    decreases t.height[t.root] - t.height[n]
  {
    if n != p {
      CompletedBelow(t, s, t.parent[n], p);
      CompletedKids(t, s, n);
    }
  }

  /** A revoked capability that is not completed still waits for one of its remote edges. */
  lemma {:induction false} OpenEdge(t: Tree, s: Wave, n: Id) returns (x: Id)
    requires Inv(t, s) && n in t.kids && Settles(t, n) && n !in s.live && n !in s.completed
    ensures x in RemoteEdges(t, n) && !Credited(s, x)
    decreases t.height[n]
  {
    assert Counted(t, s, None, n);
    if forall j :: 0 <= j < |t.kids[n]| ==> Term(t, s, t.kids[n][j]) == 0 {
      OwedAllZero(t, s, n, |t.kids[n]|);
    }
    var j :| 0 <= j < |t.kids[n]| && Term(t, s, t.kids[n][j]) != 0;
    var k := t.kids[n][j];
    assert Above(t, k, n) && Placed(t, s, k);
    if Remote(t, k) {
      x := k;
    } else {
      assert Local(t, k) && Await(t, k) <= 1;
      SettlesBelow(t, n, k);
      x := OpenEdge(t, s, k);
      UnderTrans(t, t.parent[x], k, n);
    }
  }

  /** A completed one has heard from all of them. */
  lemma NoOpenEdge(t: Tree, s: Wave, n: Id, x: Id)
    requires Inv(t, s) && n in s.completed && x in RemoteEdges(t, n)
    ensures Credited(s, x)
  {
    UnderAbove(t, t.parent[x], n);
    CompletedBelow(t, s, t.parent[x], n);
    CompletedKids(t, s, x);
  }

  /** When the network is empty, exactly the revocations that settle are completed. */
  lemma {:induction false} CompletedIffSettles(t: Tree, s: Wave, n: Id)
    requires Inv(t, s) && s.net == {} && n in t.kids
    ensures n in s.completed <==> Settles(t, n)
    decreases t.height[n]
  {
    AllRevoked(t, s, n);
    if Settles(t, n) {
      if n !in s.completed {
        var x := OpenEdge(t, s, n);
        UnderAbove(t, t.parent[x], n);
        AboveTrans(t, x, x);
        AboveAbove(t, x, t.parent[x], n);
        SettlesBelow(t, n, x);
        UnderIsLower(t, t.parent[x], n);
        CompletedIffSettles(t, s, x);
      }
    } else if n in s.completed {
      forall k | k in t.parent && Local(t, k) && Above(t, t.parent[k], n) ensures Await(t, k) <= 1 {
        CompletedBelow(t, s, t.parent[k], n);
        CompletedKids(t, s, k);
      }
    }
  }

  function SettledRemote(t: Tree): set<Id> {
    set k | k in AllRemote(t) && Settles(t, k)
  }

  /**
   When all is quiet, every message has been acknowledged exactly once; there was one
   REVOKE per remote edge, and one REVOKEFINISH per remote capability that settles. An
   entry is left for every capability that had to wait and does not settle.
   */
  lemma {:induction false} TrafficByTree(t: Tree, run: seq<Wave>)
    requires Run(t, run) && Quiet(run[|run| - 1])
    ensures var s := run[|run| - 1];
            && s.acked == s.sent
            && |s.sent| == |AllRemote(t)| + |SettledRemote(t)|
            && (forall k | k in AllRemote(t) ::
                  && s.sent[Revoke(k)] == 1
                  && s.sent[Finish(k, true)] + s.sent[Finish(k, false)] == One(Settles(t, k)))
            && (forall n | n in t.kids && Await(t, n) > 0 && !Settles(t, n) :: n in s.entries)
  {
    var s := run[|run| - 1];
    RunInv(t, run);
    TrafficAtTheEnd(t, run);
    forall n | n in t.kids
      ensures n in s.completed <==> Settles(t, n)
      ensures Await(t, n) > 0 && !Settles(t, n) ==> n in s.entries
    {
      CompletedIffSettles(t, s, n);
      AllRevoked(t, s, n);
      assert Counted(t, s, None, n);
    }
    assert AllRemote(t) * s.completed == SettledRemote(t);
  }
}
