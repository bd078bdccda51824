/** The choice of the view to protect inside a view controller's view
    (`getViewPriority` and `findProtectionTarget`). A depth-first search
    ranks views by `nativeID` and class name, visits the subviews of every
    view in descending rank, stops at the first bottom sheet and otherwise
    prefers a shielded view, then a safe-area view, then the first subview
    of a safe-area provider. */
module ShieldTarget {
  import opened Wrappers
  import opened Strings
  import opened Views

  const BottomSheetID := "BottomSheetComponent"

  /** The rank of a view: 4 bottom sheet, 3 shielded, 2 safe-area view,
      1 safe-area provider, 0 anything else. The `nativeID` tests come
      before the class-name tests. */
  function ViewPriority(v: View): (p: nat)
    ensures p <= 4
    ensures p == 4 <==> v.nativeID == Some(BottomSheetID)
    ensures v.nativeID.Some? && Contains(v.nativeID.value, "shielded") ==> p >= 3
    ensures p >= 3 ==> v.nativeID.Some?
    ensures p == 2 ==> Contains(v.className, "RNCSafeAreaView") || Contains(v.className, "RCTSafeAreaView")
    ensures p == 1 ==> Contains(v.className, "RNCSafeAreaProvider")
  {
    if v.nativeID.Some? && v.nativeID.value == BottomSheetID then 4
    else if v.nativeID.Some? && Contains(v.nativeID.value, "shielded") then 3
    else if Contains(v.className, "RNCSafeAreaView") || Contains(v.className, "RCTSafeAreaView") then 2
    else if Contains(v.className, "RNCSafeAreaProvider") then 1
    else 0
  }

  function Rank(n: ViewNode): nat {
    ViewPriority(n.view)
  }

  /** `view.subviews.first`. */
  function FirstSubview(n: ViewNode): Option<View> {
    if |n.subviews| > 0 then Some(n.subviews[0].view) else None
  }

  // ---------------------------------------------------------------------
  // Subviews in descending rank (`subviews.sorted { rank(a) > rank(b) }`)
  // ---------------------------------------------------------------------

  // Ranks run from 0 to 4, so the sort is the five buckets of equal rank,
  // highest first. It is stated for any rank function, so that its proofs
  // do not unfold the string tests of `ViewPriority`.

  /** The nodes of rank `k`, in their original order. */
  function Bucket(vs: seq<ViewNode>, rank: ViewNode -> nat, k: nat): seq<ViewNode> {
    if vs == [] then []
    else (if rank(vs[0]) == k then [vs[0]] else []) + Bucket(vs[1..], rank, k)
  }

  /** The buckets of ranks 4 down to 0. */
  function Buckets(vs: seq<ViewNode>, rank: ViewNode -> nat): seq<ViewNode> {
    Bucket(vs, rank, 4) + (Bucket(vs, rank, 3) + (Bucket(vs, rank, 2) + (Bucket(vs, rank, 1) + Bucket(vs, rank, 0))))
  }

  /** The subviews sorted by descending rank; nodes of equal rank keep their order. */
  function ByPriority(vs: seq<ViewNode>): (r: seq<ViewNode>)
    ensures forall x | x in r :: x in vs
  {
    BucketsMembers(vs, Rank);
    Buckets(vs, Rank)
  }

  predicate Descending(r: seq<ViewNode>, rank: ViewNode -> nat) {
    forall i, j | 0 <= i < j < |r| :: rank(r[i]) >= rank(r[j])
  }

  /** A bucket holds each node of its rank as often as the input does, and nothing else. */
  lemma {:induction false} BucketCount(vs: seq<ViewNode>, rank: ViewNode -> nat, k: nat, y: ViewNode)
    ensures multiset(Bucket(vs, rank, k))[y] == if rank(y) == k then multiset(vs)[y] else 0
  {
    if vs != [] {
      BucketCount(vs[1..], rank, k, y);
      assert vs == [vs[0]] + vs[1..];
    }
  }

  lemma BucketsCount(vs: seq<ViewNode>, rank: ViewNode -> nat, y: ViewNode)
    ensures multiset(Buckets(vs, rank))[y] == if rank(y) <= 4 then multiset(vs)[y] else 0
  {
    BucketCount(vs, rank, 4, y);
    BucketCount(vs, rank, 3, y);
    BucketCount(vs, rank, 2, y);
    BucketCount(vs, rank, 1, y);
    BucketCount(vs, rank, 0, y);
  }

  lemma BucketsPermutes(vs: seq<ViewNode>, rank: ViewNode -> nat)
    requires forall x :: rank(x) <= 4
    ensures multiset(Buckets(vs, rank)) == multiset(vs)
  {
    forall y ensures multiset(Buckets(vs, rank))[y] == multiset(vs)[y] {
      BucketsCount(vs, rank, y);
    }
    SameCounts(Buckets(vs, rank), vs);
  }

  /** Two sequences holding every node equally often are permutations of each other. */
  lemma SameCounts(a: seq<ViewNode>, b: seq<ViewNode>)
    requires forall y :: multiset(a)[y] == multiset(b)[y]
    ensures multiset(a) == multiset(b)
  {
  }

  /** Every node of the buckets comes from the input. */
  lemma BucketsMembers(vs: seq<ViewNode>, rank: ViewNode -> nat)
    ensures forall x | x in Buckets(vs, rank) :: x in vs
  {
    forall x | x in Buckets(vs, rank) ensures x in vs {
      BucketsCount(vs, rank, x);
    }
  }

  lemma {:induction false} BucketConcat(a: seq<ViewNode>, b: seq<ViewNode>, rank: ViewNode -> nat, k: nat)
    ensures Bucket(a + b, rank, k) == Bucket(a, rank, k) + Bucket(b, rank, k)
  {
    if a != [] {
      BucketConcat(a[1..], b, rank, k);
      assert (a + b)[1..] == a[1..] + b;
    } else {
      assert a + b == b;
    }
  }

  lemma {:induction false} BucketOfBucket(vs: seq<ViewNode>, rank: ViewNode -> nat, j: nat, k: nat)
    ensures Bucket(Bucket(vs, rank, j), rank, k) == if j == k then Bucket(vs, rank, k) else []
  {
    if vs != [] {
      BucketOfBucket(vs[1..], rank, j, k);
      BucketConcat(if rank(vs[0]) == j then [vs[0]] else [], Bucket(vs[1..], rank, j), rank, k);
      if rank(vs[0]) == j {
        assert Bucket([vs[0]], rank, k) == if j == k then [vs[0]] else [] by {
          assert [vs[0]][1..] == [];
        }
      }
    }
  }

  lemma {:induction false} BucketRanks(vs: seq<ViewNode>, rank: ViewNode -> nat, k: nat)
    ensures forall i | 0 <= i < |Bucket(vs, rank, k)| :: rank(Bucket(vs, rank, k)[i]) == k
  {
    if vs != [] {
      BucketRanks(vs[1..], rank, k);
    }
  }

  /** A bucket of rank `k` followed by a descending run of lower ranks is descending. */
  lemma PrependBucket(vs: seq<ViewNode>, b: seq<ViewNode>, rank: ViewNode -> nat, k: nat)
    requires Descending(b, rank) && forall i | 0 <= i < |b| :: rank(b[i]) < k
    ensures Descending(Bucket(vs, rank, k) + b, rank)
    ensures forall i | 0 <= i < |Bucket(vs, rank, k) + b| :: rank((Bucket(vs, rank, k) + b)[i]) <= k
  {
    var a := Bucket(vs, rank, k);
    BucketRanks(vs, rank, k);
    forall i | 0 <= i < |a + b| ensures rank((a + b)[i]) <= k {
      if i >= |a| {
        assert (a + b)[i] == b[i - |a|];
      }
    }
    forall i, j | 0 <= i < j < |a + b| ensures rank((a + b)[i]) >= rank((a + b)[j]) {
      if j < |a| {
        assert (a + b)[i] == a[i] && (a + b)[j] == a[j];
      } else if i >= |a| {
        assert (a + b)[i] == b[i - |a|] && (a + b)[j] == b[j - |a|];
      } else {
        assert (a + b)[i] == a[i] && (a + b)[j] == b[j - |a|];
      }
    }
  }

  lemma BucketsSorted(vs: seq<ViewNode>, rank: ViewNode -> nat)
    ensures Descending(Buckets(vs, rank), rank)
  {
    BucketRanks(vs, rank, 0);
    var b0 := Bucket(vs, rank, 0);
    PrependBucket(vs, b0, rank, 1);
    var b1 := Bucket(vs, rank, 1) + b0;
    PrependBucket(vs, b1, rank, 2);
    var b2 := Bucket(vs, rank, 2) + b1;
    PrependBucket(vs, b2, rank, 3);
    var b3 := Bucket(vs, rank, 3) + b2;
    PrependBucket(vs, b3, rank, 4);
  }

  lemma {:induction false} BucketHigh(vs: seq<ViewNode>, rank: ViewNode -> nat, k: nat)
    requires forall x :: rank(x) < k
    ensures Bucket(vs, rank, k) == []
  {
    if vs != [] {
      BucketHigh(vs[1..], rank, k);
    }
  }

  lemma BucketsStable(vs: seq<ViewNode>, rank: ViewNode -> nat, k: nat)
    requires forall x :: rank(x) <= 4
    ensures Bucket(Buckets(vs, rank), rank, k) == Bucket(vs, rank, k)
  {
    var b0, b1, b2, b3, b4 := Bucket(vs, rank, 0), Bucket(vs, rank, 1), Bucket(vs, rank, 2), Bucket(vs, rank, 3), Bucket(vs, rank, 4);
    BucketConcat(b1, b0, rank, k);
    BucketConcat(b2, b1 + b0, rank, k);
    BucketConcat(b3, b2 + (b1 + b0), rank, k);
    BucketConcat(b4, b3 + (b2 + (b1 + b0)), rank, k);
    BucketOfBucket(vs, rank, 0, k);
    BucketOfBucket(vs, rank, 1, k);
    BucketOfBucket(vs, rank, 2, k);
    BucketOfBucket(vs, rank, 3, k);
    BucketOfBucket(vs, rank, 4, k);
    if k > 4 {
      BucketHigh(vs, rank, k);
    }
  }

  /** Subviews are explored in descending rank. */
  lemma ByPrioritySorted(vs: seq<ViewNode>)
    ensures forall i, j | 0 <= i < j < |ByPriority(vs)| :: Rank(ByPriority(vs)[i]) >= Rank(ByPriority(vs)[j])
  {
    BucketsSorted(vs, Rank);
  }

  /** The sorted subviews are a permutation of the subviews. */
  lemma ByPriorityPermutes(vs: seq<ViewNode>)
    ensures multiset(ByPriority(vs)) == multiset(vs)
  {
    forall x ensures Rank(x) <= 4 {
    }
    BucketsPermutes(vs, Rank);
  }

  /** Subviews of equal rank keep their relative order. */
  lemma ByPriorityStable(vs: seq<ViewNode>, k: nat)
    ensures Bucket(ByPriority(vs), Rank, k) == Bucket(vs, Rank, k)
  {
    forall x ensures Rank(x) <= 4 {
    }
    BucketsStable(vs, Rank, k);
  }

  // ---------------------------------------------------------------------
  // The search (`traverse` and its four captured candidates)
  // ---------------------------------------------------------------------

  /** The four candidates `traverse` records. */
  datatype Found = Found(fallback: Option<View>, safeArea: Option<View>,
                         shielded: Option<View>, bottomSheet: Option<View>)

  const NothingFound := Found(None, None, None, None)

  /** The `switch` on a visited node's rank: what it records. A candidate
      changes only in the case and under the guard stated here; the first
      shielded view is never replaced. */
  function Note(n: ViewNode, s: Found): (r: Found)
    ensures r.bottomSheet != s.bottomSheet ==> Rank(n) == 4 && r.bottomSheet == Some(n.view)
    ensures Rank(n) == 4 ==> r.bottomSheet == Some(n.view)
    ensures s.shielded.Some? ==> r.shielded == s.shielded
    ensures r.shielded != s.shielded ==> Rank(n) == 3 && r.shielded == Some(n.view)
    ensures r.safeArea != s.safeArea ==>
              Rank(n) == 2 && s.safeArea.None? && s.shielded.None? && r.safeArea == Some(n.view)
    ensures r.fallback != s.fallback ==>
              Rank(n) == 1 && s.fallback.None? && s.safeArea.None? && s.shielded.None? && r.fallback == FirstSubview(n)
  {
    match Rank(n)
    case 4 => s.(bottomSheet := Some(n.view))
    case 3 => if s.shielded.None? then s.(shielded := Some(n.view)) else s
    case 2 => if s.safeArea.None? && s.shielded.None? then s.(safeArea := Some(n.view)) else s
    case 1 => if s.fallback.None? && s.safeArea.None? && s.shielded.None? then s.(fallback := FirstSubview(n)) else s
    case _ => s
  }

  /** `traverse(view)`: whether a bottom sheet stopped the search, and the candidates after it. */
  function Visit(n: ViewNode, s: Found): (bool, Found)
    decreases n, 1
  {
    var s' := Note(n, s);
    if Rank(n) == 4 then (true, s')
    else VisitAll(n, ByPriority(n.subviews), s')
  }

  /** The loop over the sorted subviews of `parent`; `kids` is what is left of it. */
  function VisitAll(parent: ViewNode, kids: seq<ViewNode>, s: Found): (bool, Found)
    requires forall k | k in kids :: k in parent.subviews
    decreases parent, 0, |kids|
  {
    if kids == [] then (false, s)
    else
      assert kids[0] in kids;
      var (stop, s') := Visit(kids[0], s);
      if stop then (true, s') else VisitAll(parent, kids[1..], s')
  }

  /** `bottomSheetView ?? shieldedView ?? safeAreaView ?? fallbackView`. */
  function Resolve(s: Found): Option<View> {
    OrElse(s.bottomSheet, OrElse(s.shielded, OrElse(s.safeArea, s.fallback)))
  }

  /** What `findProtectionTarget(in: root)` returns. */
  function ProtectionTarget(root: ViewNode): Option<View> {
    Resolve(Visit(root, NothingFound).1)
  }

  /** `traverse`: the recursive search; its loop over the sorted subviews is `TraverseSubviews`. */
  method Traverse(n: ViewNode, s: Found) returns (stop: bool, t: Found)
    ensures (stop, t) == Visit(n, s)
    decreases n, 1
  {
    t := Note(n, s);
    if Rank(n) == 4 {
      return true, t;
    }
    stop, t := TraverseSubviews(n, ByPriority(n.subviews), t);
  }

  /** The `for subview in prioritized` loop of `traverse`, which returns as
      soon as a recursive call found a bottom sheet. */
  method TraverseSubviews(n: ViewNode, prioritized: seq<ViewNode>, s: Found) returns (stop: bool, t: Found)
    requires forall k | k in prioritized :: k in n.subviews
    ensures (stop, t) == VisitAll(n, prioritized, s)
    decreases n, 0
  {
    t := s;
    var i := 0;
    while i < |prioritized|
      invariant 0 <= i <= |prioritized|
      invariant VisitAll(n, prioritized[i..], t) == VisitAll(n, prioritized, s)
    {
      var subview := prioritized[i];
      assert subview in prioritized;
      assert prioritized[i..][1..] == prioritized[i + 1..];
      var found;
      found, t := Traverse(subview, t);
      if found {
        return true, t;
      }
      i := i + 1;
    }
    return false, t;
  }

  /** `findProtectionTarget(in:)`. */
  method FindProtectionTarget(target: ViewNode) returns (r: Option<View>)
    ensures r == ProtectionTarget(target)
    ensures r == Preferred(Order(target))
    ensures r.Some? ==> InTree(r.value, target)
  {
    var _, found := Traverse(target, NothingFound);
    r := Resolve(found);
    TargetIsPreferred(target);
    TargetInTree(target);
  }

  // ---------------------------------------------------------------------
  // A reference definition: the visiting order and the preference rule
  // ---------------------------------------------------------------------

  /** The nodes in the order `traverse` visits them when nothing stops it. */
  function Order(n: ViewNode): seq<ViewNode>
    decreases n, 1
  {
    [n] + OrderAll(n, ByPriority(n.subviews))
  }

  function OrderAll(parent: ViewNode, kids: seq<ViewNode>): seq<ViewNode>
    requires forall k | k in kids :: k in parent.subviews
    decreases parent, 0, |kids|
  {
    if kids == [] then [] else assert kids[0] in kids; Order(kids[0]) + OrderAll(parent, kids[1..])
  }

  /** Some node of the sequence is a bottom sheet. */
  predicate HasSheet(xs: seq<ViewNode>) {
    xs != [] && (Rank(xs[0]) == 4 || HasSheet(xs[1..]))
  }

  /** The visiting order cut just after its first bottom sheet. */
  function UpToSheet(xs: seq<ViewNode>): seq<ViewNode> {
    if xs == [] then []
    else if Rank(xs[0]) == 4 then [xs[0]]
    else [xs[0]] + UpToSheet(xs[1..])
  }

  /** The `switch` applied to a sequence of nodes, left to right. */
  function NoteAll(xs: seq<ViewNode>, s: Found): Found
    decreases |xs|
  {
    if xs == [] then s else NoteAll(xs[1..], Note(xs[0], s))
  }

  function FirstOfRank(xs: seq<ViewNode>, k: nat): Option<View> {
    if xs == [] then None
    else if Rank(xs[0]) == k then Some(xs[0].view)
    else FirstOfRank(xs[1..], k)
  }

  function LastOfRank(xs: seq<ViewNode>, k: nat): Option<View> {
    if xs == [] then None
    else OrElse(LastOfRank(xs[1..], k), if Rank(xs[0]) == k then Some(xs[0].view) else None)
  }

  /** The first subview of the first safe-area provider that has subviews. */
  function FirstProviderChild(xs: seq<ViewNode>): Option<View> {
    if xs == [] then None
    else if Rank(xs[0]) == 1 && FirstSubview(xs[0]).Some? then FirstSubview(xs[0])
    else FirstProviderChild(xs[1..])
  }

  /** The preference rule on a visiting order: the first bottom sheet, else
      the first shielded view, else the first safe-area view, else the first
      subview of the first provider that has one. */
  function Preferred(xs: seq<ViewNode>): Option<View> {
    OrElse(FirstOfRank(xs, 4), OrElse(FirstOfRank(xs, 3), OrElse(FirstOfRank(xs, 2), FirstProviderChild(xs))))
  }

  /** The safe-area candidate a sequence records: a safe-area view seen before any shielded view. */
  function SafeAreaOf(xs: seq<ViewNode>): Option<View> {
    if xs == [] then None
    else if Rank(xs[0]) == 3 then None
    else if Rank(xs[0]) == 2 then Some(xs[0].view)
    else SafeAreaOf(xs[1..])
  }

  /** The fallback candidate a sequence records: a provider's first subview seen before any safe-area or shielded view. */
  function FallbackOf(xs: seq<ViewNode>): Option<View> {
    if xs == [] then None
    else if Rank(xs[0]) == 3 || Rank(xs[0]) == 2 then None
    else if Rank(xs[0]) == 1 && FirstSubview(xs[0]).Some? then FirstSubview(xs[0])
    else FallbackOf(xs[1..])
  }

  lemma {:induction false} UpToSheetConcat(a: seq<ViewNode>, b: seq<ViewNode>)
    ensures !HasSheet(a) ==> UpToSheet(a) == a
    ensures UpToSheet(a + b) == if HasSheet(a) then UpToSheet(a) else a + UpToSheet(b)
    ensures HasSheet(a + b) == (HasSheet(a) || HasSheet(b))
  {
    if a == [] {
      assert a + b == b;
    } else {
      assert (a + b)[0] == a[0] && (a + b)[1..] == a[1..] + b;
      UpToSheetConcat(a[1..], b);
    }
  }

  lemma {:induction false} NoteAllConcat(a: seq<ViewNode>, b: seq<ViewNode>, s: Found)
    ensures NoteAll(a + b, s) == NoteAll(b, NoteAll(a, s))
  {
    if a == [] {
      assert a + b == b;
    } else {
      assert (a + b)[0] == a[0] && (a + b)[1..] == a[1..] + b;
      NoteAllConcat(a[1..], b, Note(a[0], s));
    }
  }

  /** The early-stopping search is the `switch` folded over the visiting
      order up to the first bottom sheet; it stops exactly when the subtree
      holds a bottom sheet. */
  lemma {:induction false} VisitIsFold(n: ViewNode, s: Found)
    ensures Visit(n, s) == (HasSheet(Order(n)), NoteAll(UpToSheet(Order(n)), s))
    decreases n, 1
  {
    var rest := OrderAll(n, ByPriority(n.subviews));
    UpToSheetConcat([n], rest);
    assert HasSheet([n]) == (Rank(n) == 4);
    assert ([n] + UpToSheet(rest))[0] == n && ([n] + UpToSheet(rest))[1..] == UpToSheet(rest);
    if Rank(n) != 4 {
      VisitAllIsFold(n, ByPriority(n.subviews), Note(n, s));
    }
  }

  lemma {:induction false} VisitAllIsFold(parent: ViewNode, kids: seq<ViewNode>, s: Found)
    requires forall k | k in kids :: k in parent.subviews
    ensures VisitAll(parent, kids, s) ==
            (HasSheet(OrderAll(parent, kids)), NoteAll(UpToSheet(OrderAll(parent, kids)), s))
    decreases parent, 0, |kids|
  {
    if kids != [] {
      assert kids[0] in kids;
      var a, b := Order(kids[0]), OrderAll(parent, kids[1..]);
      VisitIsFold(kids[0], s);
      UpToSheetConcat(a, b);
      if !HasSheet(a) {
        NoteAllConcat(a, UpToSheet(b), s);
        VisitAllIsFold(parent, kids[1..], NoteAll(a, s));
      }
    }
  }

  lemma {:induction false} BottomSheetOfFold(xs: seq<ViewNode>, s: Found)
    ensures NoteAll(xs, s).bottomSheet == OrElse(LastOfRank(xs, 4), s.bottomSheet)
  {
    if xs != [] {
      BottomSheetOfFold(xs[1..], Note(xs[0], s));
    }
  }

  lemma {:induction false} ShieldedOfFold(xs: seq<ViewNode>, s: Found)
    ensures NoteAll(xs, s).shielded == OrElse(s.shielded, FirstOfRank(xs, 3))
  {
    if xs != [] {
      ShieldedOfFold(xs[1..], Note(xs[0], s));
    }
  }

  lemma {:induction false} SafeAreaOfFold(xs: seq<ViewNode>, s: Found)
    ensures NoteAll(xs, s).safeArea ==
            if s.safeArea.Some? || s.shielded.Some? then s.safeArea else SafeAreaOf(xs)
  {
    if xs != [] {
      SafeAreaOfFold(xs[1..], Note(xs[0], s));
    }
  }

  lemma {:induction false} FallbackOfFold(xs: seq<ViewNode>, s: Found)
    ensures NoteAll(xs, s).fallback ==
            if s.fallback.Some? || s.safeArea.Some? || s.shielded.Some? then s.fallback else FallbackOf(xs)
  {
    if xs != [] {
      FallbackOfFold(xs[1..], Note(xs[0], s));
    }
  }

  lemma {:induction false} LastSheetOfCut(xs: seq<ViewNode>)
    ensures LastOfRank(UpToSheet(xs), 4) == FirstOfRank(xs, 4)
    ensures !HasSheet(xs) ==> UpToSheet(xs) == xs && FirstOfRank(xs, 4) == None
  {
    if xs != [] {
      LastSheetOfCut(xs[1..]);
      var u := UpToSheet(xs);
      if Rank(xs[0]) == 4 {
        assert u[1..] == [];
      } else {
        assert u[0] == xs[0] && u[1..] == UpToSheet(xs[1..]);
      }
    }
  }

  lemma {:induction false} SafeAreaWithoutShielded(xs: seq<ViewNode>)
    requires FirstOfRank(xs, 3) == None
    ensures SafeAreaOf(xs) == FirstOfRank(xs, 2)
  {
    if xs != [] {
      SafeAreaWithoutShielded(xs[1..]);
    }
  }

  lemma {:induction false} FallbackWithoutViews(xs: seq<ViewNode>)
    requires FirstOfRank(xs, 3) == None && FirstOfRank(xs, 2) == None
    ensures FallbackOf(xs) == FirstProviderChild(xs)
  {
    if xs != [] {
      FallbackWithoutViews(xs[1..]);
    }
  }

  /** The target obeys the preference rule over the visiting order. */
  lemma TargetIsPreferred(root: ViewNode)
    ensures ProtectionTarget(root) == Preferred(Order(root))
  {
    var o := Order(root);
    var u := UpToSheet(o);
    VisitIsFold(root, NothingFound);
    BottomSheetOfFold(u, NothingFound);
    ShieldedOfFold(u, NothingFound);
    SafeAreaOfFold(u, NothingFound);
    FallbackOfFold(u, NothingFound);
    LastSheetOfCut(o);
    if HasSheet(o) {
      SheetFound(o);
    } else {
      if FirstOfRank(o, 3) == None {
        SafeAreaWithoutShielded(o);
        if FirstOfRank(o, 2) == None {
          FallbackWithoutViews(o);
        }
      }
    }
  }

  // ---------------------------------------------------------------------
  // The target lies inside the searched subtree
  // ---------------------------------------------------------------------

  /** `w` is the view of `n` or of one of its descendants. */
  predicate InTree(w: View, n: ViewNode)
    decreases n
  {
    w == n.view || exists c | c in n.subviews :: InTree(w, c)
  }

  /** The node `x` is `n` or one of its descendants. */
  predicate Descendant(x: ViewNode, n: ViewNode)
    decreases n
  {
    x == n || exists c | c in n.subviews :: Descendant(x, c)
  }

  lemma {:induction false} DescendantViews(x: ViewNode, n: ViewNode)
    requires Descendant(x, n)
    ensures InTree(x.view, n)
    ensures forall c | c in x.subviews :: InTree(c.view, n)
    decreases n
  {
    if x == n {
      forall c | c in x.subviews ensures InTree(c.view, n) {
        assert InTree(c.view, c);
      }
    } else {
      var c :| c in n.subviews && Descendant(x, c);
      DescendantViews(x, c);
    }
  }

  lemma {:induction false} OrderDescendants(n: ViewNode)
    ensures forall x | x in Order(n) :: Descendant(x, n)
    decreases n, 1
  {
    OrderAllDescendants(n, ByPriority(n.subviews));
  }

  lemma {:induction false} OrderAllDescendants(parent: ViewNode, kids: seq<ViewNode>)
    requires forall k | k in kids :: k in parent.subviews
    ensures forall x | x in OrderAll(parent, kids) :: Descendant(x, parent)
    decreases parent, 0, |kids|
  {
    if kids != [] {
      assert kids[0] in kids;
      OrderDescendants(kids[0]);
      OrderAllDescendants(parent, kids[1..]);
      forall x | x in Order(kids[0]) ensures Descendant(x, parent) {
        assert kids[0] in parent.subviews && Descendant(x, kids[0]);
      }
    }
  }

  lemma {:induction false} PreferredFromMembers(xs: seq<ViewNode>, n: ViewNode)
    requires forall x | x in xs :: Descendant(x, n)
    ensures forall k :: FirstOfRank(xs, k).Some? ==> InTree(FirstOfRank(xs, k).value, n)
    ensures FirstProviderChild(xs).Some? ==> InTree(FirstProviderChild(xs).value, n)
  {
    if xs != [] {
      PreferredFromMembers(xs[1..], n);
      DescendantViews(xs[0], n);
    }
  }

  /** Any target found lies inside the subtree rooted at `root`. */
  lemma TargetInTree(root: ViewNode)
    ensures ProtectionTarget(root).Some? ==> InTree(ProtectionTarget(root).value, root)
  {
    TargetIsPreferred(root);
    OrderDescendants(root);
    PreferredFromMembers(Order(root), root);
  }

  /** A bottom sheet anywhere in the subtree stops the search and is the
      target, however many shielded views surround it. */
  lemma BottomSheetWins(root: ViewNode)
    ensures Visit(root, NothingFound).0 <==> HasSheet(Order(root))
    ensures HasSheet(Order(root)) ==>
              ProtectionTarget(root).Some? && ViewPriority(ProtectionTarget(root).value) == 4
  {
    VisitIsFold(root, NothingFound);
    TargetIsPreferred(root);
    if HasSheet(Order(root)) {
      SheetFound(Order(root));
    }
  }

  lemma {:induction false} SheetFound(xs: seq<ViewNode>)
    requires HasSheet(xs)
    ensures FirstOfRank(xs, 4).Some? && ViewPriority(FirstOfRank(xs, 4).value) == 4
  {
    if Rank(xs[0]) != 4 {
      SheetFound(xs[1..]);
    }
  }
}
