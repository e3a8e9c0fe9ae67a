/**
 The capability tree as it is spread over the kernels. Every capability has a home
 kernel; a child edge is *remote* when parent and child have different homes, and
 *local* otherwise. The functions below say, for the tree alone, what a revocation will
 visit on one kernel and how many answers it will wait for.
 */
module CapTree {

  type Id = nat
  type Kernel = nat

  /** `height` ranks every capability above its children; it bounds recursion over the tree. */
  datatype RawTree = RawTree(root: Id,
                             kids: map<Id, seq<Id>>,
                             parent: map<Id, Id>,
                             home: map<Id, Kernel>,
                             height: map<Id, nat>)
  {
    ghost predicate Valid() {
      && root in kids
      && kids.Keys == home.Keys == height.Keys
      && parent.Keys == kids.Keys - {root}
      && (forall n, i | n in kids && 0 <= i < |kids[n]| ::
            kids[n][i] in parent && parent[kids[n][i]] == n)
      && (forall n, i, j | n in kids && 0 <= i < j < |kids[n]| :: kids[n][i] != kids[n][j])
      && (forall k | k in parent ::
            parent[k] in kids && k in kids[parent[k]] && height[k] < height[parent[k]])
      && (forall n | n in kids :: height[n] <= height[root])
    }
  }

  type Tree = t: RawTree | t.Valid()
    witness RawTree(0, map[0 := []], map[], map[0 := 0], map[0 := 0])

  predicate Local(t: Tree, k: Id) {
    k in t.parent && t.home[k] == t.home[t.parent[k]]
  }

  predicate Remote(t: Tree, k: Id) {
    k in t.parent && t.home[k] != t.home[t.parent[k]]
  }

  /** `n` is `c` or is reached from `c` over local edges only. */
  predicate Under(t: Tree, n: Id, c: Id)
    requires n in t.kids
    decreases t.height[t.root] - t.height[n]
  {
    n == c || (Local(t, n) && Under(t, t.parent[n], c))
  }

  /** The part of the subtree of `c` that lives on the kernel of `c` and hangs together there. */
  function LocalPart(t: Tree, c: Id): set<Id> {
    set n | n in t.kids && Under(t, n, c)
  }

  /** The remote capabilities hanging directly below that part. */
  function RemoteEdges(t: Tree, c: Id): set<Id> {
    set k | k in t.parent && Remote(t, k) && Under(t, t.parent[k], c)
  }

  function AllRemote(t: Tree): set<Id> {
    set k | k in t.parent && Remote(t, k)
  }

  /** The number of answers that the revocation entry of `n` starts with. */
  function Await(t: Tree, n: Id): nat
    requires n in t.kids
    decreases t.height[n], |t.kids[n]| + 1
  {
    AwaitUpTo(t, n, |t.kids[n]|)
  }

  function AwaitUpTo(t: Tree, n: Id, i: nat): nat
    requires n in t.kids && i <= |t.kids[n]|
    decreases t.height[n], i
  {
    if i == 0 then 0 else
      var k := t.kids[n][i - 1];
      AwaitUpTo(t, n, i - 1) + (if Remote(t, k) then 1 else Await(t, k))
  }

  /**
   What decides whether a revocation ever answers: below every local child at most one
   remote edge leaves the kernel.
   */
  ghost predicate Responsive(t: Tree) {
    forall k | k in t.parent && Local(t, k) :: Await(t, k) <= 1
  }

  lemma {:induction false} UnderIsLower(t: Tree, n: Id, c: Id)
    requires n in t.kids && Under(t, n, c)
    ensures c in t.kids && t.home[n] == t.home[c] && t.height[n] <= t.height[c]
    decreases t.height[t.root] - t.height[n]
  {
    if n != c {
      UnderIsLower(t, t.parent[n], c);
    }
  }

  lemma {:induction false} UnderTrans(t: Tree, n: Id, k: Id, c: Id)
    requires n in t.kids && Under(t, n, k) && k in t.kids && Under(t, k, c)
    ensures Under(t, n, c)
    decreases t.height[t.root] - t.height[n]
  {
    if n != k {
      UnderTrans(t, t.parent[n], k, c);
    }
  }

  /** Below `c` one passes through exactly one child of `c`. */
  lemma {:induction false} UnderSomeKid(t: Tree, n: Id, c: Id) returns (i: nat)
    requires n in t.kids && c in t.kids && Under(t, n, c) && n != c
    ensures i < |t.kids[c]| && Local(t, t.kids[c][i]) && Under(t, n, t.kids[c][i])
    decreases t.height[t.root] - t.height[n]
  {
    if t.parent[n] == c {
      i :| 0 <= i < |t.kids[c]| && t.kids[c][i] == n;
    } else {
      i := UnderSomeKid(t, t.parent[n], c);
    }
  }

  lemma {:induction false} SiblingsDisjoint(t: Tree, n: Id, j: Id, k: Id)
    requires n in t.kids && j in t.parent && k in t.parent && t.parent[j] == t.parent[k]
    requires Under(t, n, j) && Under(t, n, k)
    ensures j == k
    decreases t.height[t.root] - t.height[n]
  {
    if n == j && n != k {
      UnderIsLower(t, t.parent[n], k);
    } else if n == k && n != j {
      UnderIsLower(t, t.parent[n], j);
    } else if n != j {
      SiblingsDisjoint(t, t.parent[n], j, k);
    }
  }

  /** The local part below the first `i` children of `c`, and the remote edges found there. */
  function LocalUpTo(t: Tree, c: Id, i: nat): set<Id>
    requires c in t.kids && i <= |t.kids[c]|
  {
    if i == 0 then {} else
      LocalUpTo(t, c, i - 1) + (if Local(t, t.kids[c][i - 1]) then LocalPart(t, t.kids[c][i - 1]) else {})
  }

  function RemoteUpTo(t: Tree, c: Id, i: nat): set<Id>
    requires c in t.kids && i <= |t.kids[c]|
  {
    if i == 0 then {} else
      RemoteUpTo(t, c, i - 1)
      + (if Local(t, t.kids[c][i - 1]) then RemoteEdges(t, t.kids[c][i - 1]) else {t.kids[c][i - 1]})
  }

  lemma {:induction false} LocalUpToMember(t: Tree, c: Id, i: nat, n: Id)
    requires c in t.kids && i <= |t.kids[c]|
    ensures n in LocalUpTo(t, c, i) <==>
            n in t.kids && exists j :: 0 <= j < i && Local(t, t.kids[c][j]) && Under(t, n, t.kids[c][j])
  {
    if i > 0 {
      LocalUpToMember(t, c, i - 1, n);
    }
  }

  /** The remote capability `k` is the child `j` itself or hangs below its local part. */
  predicate Carries(t: Tree, j: Id, k: Id)
    requires Remote(t, k)
  {
    j == k || (Local(t, j) && Under(t, t.parent[k], j))
  }

  lemma {:induction false} RemoteUpToMember(t: Tree, c: Id, i: nat, k: Id)
    requires c in t.kids && i <= |t.kids[c]|
    ensures k in RemoteUpTo(t, c, i) <==>
            Remote(t, k) && (exists j :: 0 <= j < i && Carries(t, t.kids[c][j], k))
  {
    if i > 0 {
      RemoteUpToMember(t, c, i - 1, k);
    }
  }

  /** The local part of `c` is `c` itself and the local parts of its local children. */
  lemma {:induction false} LocalPartByKids(t: Tree, c: Id)
    requires c in t.kids
    ensures LocalPart(t, c) == {c} + LocalUpTo(t, c, |t.kids[c]|)
  {
    forall n ensures n in LocalPart(t, c) <==> n == c || n in LocalUpTo(t, c, |t.kids[c]|) {
      LocalUpToMember(t, c, |t.kids[c]|, n);
      if n in LocalPart(t, c) && n != c {
        var i := UnderSomeKid(t, n, c);
      }
      if n in LocalUpTo(t, c, |t.kids[c]|) {
        var j :| 0 <= j < |t.kids[c]| && Local(t, t.kids[c][j]) && Under(t, n, t.kids[c][j]);
        UnderTrans(t, n, t.kids[c][j], c);
      }
    }
  }

  lemma {:induction false} RemoteEdgesByKids(t: Tree, c: Id)
    requires c in t.kids
    ensures RemoteEdges(t, c) == RemoteUpTo(t, c, |t.kids[c]|)
  {
    forall k ensures k in RemoteEdges(t, c) <==> k in RemoteUpTo(t, c, |t.kids[c]|) {
      RemoteUpToMember(t, c, |t.kids[c]|, k);
      if k in RemoteEdges(t, c) {
        if t.parent[k] == c {
          var i :| 0 <= i < |t.kids[c]| && t.kids[c][i] == k;
          assert Carries(t, t.kids[c][i], k);
        } else {
          var i := UnderSomeKid(t, t.parent[k], c);
          assert Carries(t, t.kids[c][i], k);
        }
      }
      if k in RemoteUpTo(t, c, |t.kids[c]|) {
        var j :| 0 <= j < |t.kids[c]| && Carries(t, t.kids[c][j], k);
        if t.kids[c][j] != k {
          UnderTrans(t, t.parent[k], t.kids[c][j], c);
        }
      }
    }
  }

  /** The `i`-th child contributes nothing that an earlier child contributed. */
  lemma {:induction false} KidsDisjoint(t: Tree, c: Id, i: nat)
    requires c in t.kids && i < |t.kids[c]|
    ensures c !in LocalUpTo(t, c, i)
    ensures Local(t, t.kids[c][i]) ==> LocalUpTo(t, c, i) !! LocalPart(t, t.kids[c][i])
    ensures Local(t, t.kids[c][i]) ==> c !in LocalPart(t, t.kids[c][i])
    ensures Local(t, t.kids[c][i]) ==> RemoteUpTo(t, c, i) !! RemoteEdges(t, t.kids[c][i])
    ensures Remote(t, t.kids[c][i]) ==> t.kids[c][i] !in RemoteUpTo(t, c, i)
  {
    var k := t.kids[c][i];
    LocalUpToMember(t, c, i, c);
    forall j | 0 <= j <= i && Under(t, c, t.kids[c][j]) ensures false {
      UnderIsLower(t, c, t.kids[c][j]);
    }
    forall n | n in LocalUpTo(t, c, i) && n in LocalPart(t, k) ensures false {
      LocalUpToMember(t, c, i, n);
      var j :| 0 <= j < i && Local(t, t.kids[c][j]) && Under(t, n, t.kids[c][j]);
      SiblingsDisjoint(t, n, t.kids[c][j], k);
    }
    forall r | r in RemoteUpTo(t, c, i) && (r == k || r in RemoteEdges(t, k)) ensures false {
      RemoteUpToMember(t, c, i, r);
      var j :| 0 <= j < i && Carries(t, t.kids[c][j], r);
      if r != k && t.kids[c][j] != r {
        SiblingsDisjoint(t, t.parent[r], t.kids[c][j], k);
      }
    }
  }

  /**
   A revocation entry starts with exactly as many awaited answers as remote edges leave
   the local part below it.
   */
  lemma {:induction false} AwaitCountsRemoteEdges(t: Tree, n: Id)
    requires n in t.kids
    ensures Await(t, n) == |RemoteEdges(t, n)|
    decreases t.height[n], |t.kids[n]| + 1
  {
    AwaitUpToCounts(t, n, |t.kids[n]|);
    RemoteEdgesByKids(t, n);
  }

  lemma {:induction false} AwaitUpToCounts(t: Tree, n: Id, i: nat)
    requires n in t.kids && i <= |t.kids[n]|
    ensures AwaitUpTo(t, n, i) == |RemoteUpTo(t, n, i)|
    decreases t.height[n], i
  {
    hide RemoteEdges, RemoteUpTo;
    if i == 0 {
      assert RemoteUpTo(t, n, 0) == {} by { RemoteStepFirst(t, n); }
    } else {
      AwaitUpToCounts(t, n, i - 1);
      RemoteStepSize(t, n, i - 1);
      if Local(t, t.kids[n][i - 1]) {
        AwaitCountsRemoteEdges(t, t.kids[n][i - 1]);
      }
    }
  }

  lemma {:induction false} RemoteStepFirst(t: Tree, n: Id)
    requires n in t.kids
    ensures RemoteUpTo(t, n, 0) == {}
  {
  }

  lemma RemoteStepSize(t: Tree, n: Id, i: nat)
    requires n in t.kids && i < |t.kids[n]|
    ensures var k := t.kids[n][i];
            |RemoteUpTo(t, n, i + 1)| == |RemoteUpTo(t, n, i)| + if Local(t, k) then |RemoteEdges(t, k)| else 1
  {
    var k := t.kids[n][i];
    KidsDisjoint(t, n, i);
    if Local(t, k) {
      DisjointSize(RemoteUpTo(t, n, i), RemoteEdges(t, k));
    } else {
      DisjointSize(RemoteUpTo(t, n, i), {k});
    }
  }

  lemma DisjointSize(a: set<Id>, b: set<Id>)
    requires a !! b
    ensures |a + b| == |a| + |b|
  {
  }

  // --------------------------------------------------------------- ancestors

  /** `a` is `n` or an ancestor of `n`. */
  predicate Above(t: Tree, n: Id, a: Id)
    requires n in t.kids
    decreases t.height[t.root] - t.height[n]
  {
    n == a || (n in t.parent && Above(t, t.parent[n], a))
  }

  lemma {:induction false} AboveIsHigher(t: Tree, n: Id, a: Id)
    requires n in t.kids && Above(t, n, a)
    ensures a in t.kids && t.height[n] <= t.height[a]
    decreases t.height[t.root] - t.height[n]
  {
    if n != a {
      AboveIsHigher(t, t.parent[n], a);
    }
  }

  lemma {:induction false} UnderAbove(t: Tree, n: Id, c: Id)
    requires n in t.kids && Under(t, n, c)
    ensures Above(t, n, c)
    decreases t.height[t.root] - t.height[n]
  {
    if n != c {
      UnderAbove(t, t.parent[n], c);
    }
  }

  lemma {:induction false} OneKidAbove(t: Tree, n: Id, j: Id, k: Id)
    requires n in t.kids && j in t.parent && k in t.parent && t.parent[j] == t.parent[k]
    requires Above(t, n, j) && Above(t, n, k)
    ensures j == k
    decreases t.height[t.root] - t.height[n]
  {
    if n == j && n != k {
      AboveIsHigher(t, t.parent[n], k);
    } else if n == k && n != j {
      AboveIsHigher(t, t.parent[n], j);
    } else if n != j {
      OneKidAbove(t, t.parent[n], j, k);
    }
  }

  lemma {:induction false} AboveTrans(t: Tree, n: Id, k: Id)
    requires n in t.kids && k in t.parent && Above(t, n, k)
    ensures Above(t, n, t.parent[k])
    decreases t.height[t.root] - t.height[n]
  {
    if n != k {
      AboveTrans(t, t.parent[n], k);
    }
  }

  lemma {:induction false} AboveAbove(t: Tree, n: Id, a: Id, b: Id)
    requires n in t.kids && Above(t, n, a) && a in t.kids && Above(t, a, b)
    ensures Above(t, n, b)
    decreases t.height[t.root] - t.height[n]
  {
    if n != a {
      AboveAbove(t, t.parent[n], a, b);
    }
  }

  /** Two ancestors of one capability lie above one another. */
  lemma {:induction false} AboveLinear(t: Tree, n: Id, a: Id, b: Id)
    requires n in t.kids && Above(t, n, a) && Above(t, n, b)
    ensures a in t.kids && b in t.kids && (Above(t, a, b) || Above(t, b, a))
    decreases t.height[t.root] - t.height[n]
  {
    AboveIsHigher(t, n, a);
    AboveIsHigher(t, n, b);
    if n != a && n != b {
      AboveLinear(t, t.parent[n], a, b);
    }
  }

  lemma {:induction false} RootAbove(t: Tree, n: Id)
    requires n in t.kids
    ensures Above(t, n, t.root)
    decreases t.height[t.root] - t.height[n]
  {
    if n != t.root {
      RootAbove(t, t.parent[n]);
    }
  }

  /** The first capability of the local part that `n` belongs to. */
  function Top(t: Tree, n: Id): (c: Id)
    requires n in t.kids
    ensures c in t.kids && !Local(t, c) && Under(t, n, c)
    decreases t.height[t.root] - t.height[n]
  {
    if Local(t, n) then Top(t, t.parent[n]) else n
  }

  lemma {:induction false} TopUnique(t: Tree, n: Id, c: Id)
    requires n in t.kids && Under(t, n, c) && !Local(t, c)
    ensures Top(t, n) == c
    decreases t.height[t.root] - t.height[n]
  {
    if n != c {
      TopUnique(t, t.parent[n], c);
    }
  }
}
