/** The derived order on `Tree` of fastrace/src/util/tree.rs and its `sort`: sorted trees are a normal form up to
    reordering siblings. */
module TreeOrder {
  import opened Records

  type Event = (string, Properties)

  datatype Tree = Tree(name: string, children: seq<Tree>, properties: Properties, events: seq<Event>)

  // The derived order: field by field, sequences lexicographically

  datatype Ordering = Less | Equal | Greater

  function Flip(o: Ordering): Ordering {
    match o
    case Less => Greater
    case Equal => Equal
    case Greater => Less
  }

  function Then(first: Ordering, second: Ordering): Ordering {
    if first == Equal then second else first
  }

  function CompareSeq<T>(cmp: (T, T) -> Ordering, a: seq<T>, b: seq<T>): Ordering {
    if a == [] then if b == [] then Equal else Less
    else if b == [] then Greater
    else Then(cmp(a[0], b[0]), CompareSeq(cmp, a[1..], b[1..]))
  }

  function CompareChar(a: char, b: char): Ordering {
    if a < b then Less else if a == b then Equal else Greater
  }

  function CompareString(a: string, b: string): Ordering {
    CompareSeq(CompareChar, a, b)
  }

  function CompareProperty(a: (string, string), b: (string, string)): Ordering {
    Then(CompareString(a.0, b.0), CompareString(a.1, b.1))
  }

  function CompareEvent(a: Event, b: Event): Ordering {
    Then(CompareString(a.0, b.0), CompareSeq(CompareProperty, a.1, b.1))
  }

  function Compare(a: Tree, b: Tree): Ordering
    decreases a
  {
    Then(CompareString(a.name, b.name),
         Then(CompareTrees(a.children, b.children),
              Then(CompareSeq(CompareProperty, a.properties, b.properties),
                CompareSeq(CompareEvent, a.events, b.events))))
  }

  function CompareTrees(a: seq<Tree>, b: seq<Tree>): Ordering
    decreases a
  {
    if a == [] then if b == [] then Equal else Less
    else if b == [] then Greater
    else Then(Compare(a[0], b[0]), CompareTrees(a[1..], b[1..]))
  }

  /** The laws of a total order at three elements, the first two of which are `same` or not. */
  ghost predicate Lawful(ab: Ordering, ba: Ordering, bc: Ordering, ac: Ordering, same: bool) {
    && (ab == Equal <==> same)
    && ba == Flip(ab)
    && (ab == Less && bc == Less ==> ac == Less)
    && (ab == Equal ==> ac == bc)
    && (bc == Equal ==> ac == ab)
  }

  ghost predicate Laws<T>(cmp: (T, T) -> Ordering, a: T, b: T, c: T) {
    Lawful(cmp(a, b), cmp(b, a), cmp(b, c), cmp(a, c), a == b)
  }

  ghost predicate Total<T(!new)>(cmp: (T, T) -> Ordering) {
    forall a, b, c :: Laws(cmp, a, b, c)
  }

  lemma {:induction false} SeqLaws<T(!new)>(cmp: (T, T) -> Ordering, a: seq<T>, b: seq<T>, c: seq<T>)
    requires Total(cmp)
    ensures Lawful(CompareSeq(cmp, a, b), CompareSeq(cmp, b, a), CompareSeq(cmp, b, c), CompareSeq(cmp, a, c), a == b)
    decreases |a|
  {
    if a != [] && b != [] {
      assert a == [a[0]] + a[1..] && b == [b[0]] + b[1..];
      assert Laws(cmp, a[0], b[0], if c == [] then a[0] else c[0]);
      SeqLaws(cmp, a[1..], b[1..], if c == [] then [] else c[1..]);
      if c != [] {
        assert Laws(cmp, b[0], c[0], a[0]);
      }
    }
    if b != [] && c != [] {
      assert b == [b[0]] + b[1..] && c == [c[0]] + c[1..];
    }
    if b == [] && c != [] {
      assert CompareSeq(cmp, b, c) == Less;
    }
  }

  /** How long two strings agree. */
  function Common(a: string, b: string): (n: nat)
    ensures n <= |a| && n <= |b| && a[..n] == b[..n]
    ensures n < |a| && n < |b| ==> a[n] != b[n]
  {
    if a == [] || b == [] || a[0] != b[0] then 0
    else
      assert a == [a[0]] + a[1..] && b == [b[0]] + b[1..];
      1 + Common(a[1..], b[1..])
  }

  /** A string is less than another when it has the smaller character code at the first difference, or ends there. */
  lemma {:induction false} StringOrder(a: string, b: string)
    ensures var n := Common(a, b);
            && (CompareString(a, b) == Less <==>
                  n < |b| && (n == |a| || (n < |a| && (a[n] as int) < (b[n] as int))))
            && (CompareString(a, b) == Greater <==>
                  n < |a| && (n == |b| || (n < |b| && (b[n] as int) < (a[n] as int))))
  {
    if a != [] && b != [] && a[0] == b[0] {
      StringOrder(a[1..], b[1..]);
    }
  }

  lemma {:induction false} StringTotal()
    ensures Total(CompareString)
  {
    assert Total(CompareChar);
    forall a, b, c ensures Laws(CompareString, a, b, c) {
      SeqLaws(CompareChar, a, b, c);
    }
  }

  lemma {:induction false} PropertyTotal()
    ensures Total(CompareProperty)
  {
    hide CompareString;
    StringTotal();
    forall a, b, c ensures Laws(CompareProperty, a, b, c) {
      assert Laws(CompareString, a.0, b.0, c.0) && Laws(CompareString, a.1, b.1, c.1);
    }
  }

  lemma {:induction false} EventTotal()
    ensures Total(CompareEvent)
  {
    hide CompareString, CompareProperty, CompareSeq;
    StringTotal();
    PropertyTotal();
    forall a, b, c ensures Laws(CompareEvent, a, b, c) {
      assert Laws(CompareString, a.0, b.0, c.0);
      SeqLaws(CompareProperty, a.1, b.1, c.1);
    }
  }

  /** The derived order on trees is total and equates only equal trees. */
  lemma {:induction false} TreeLaws(a: Tree, b: Tree, c: Tree)
    ensures Lawful(Compare(a, b), Compare(b, a), Compare(b, c), Compare(a, c), a == b)
    decreases a
  {
    hide CompareString, CompareProperty, CompareSeq, CompareEvent, CompareTrees;
    StringTotal();
    assert Laws(CompareString, a.name, b.name, c.name);
    TreesLaws(a.children, b.children, c.children);
    PropertyTotal();
    SeqLaws(CompareProperty, a.properties, b.properties, c.properties);
    EventTotal();
    SeqLaws(CompareEvent, a.events, b.events, c.events);
  }

  lemma {:induction false} TreesLaws(a: seq<Tree>, b: seq<Tree>, c: seq<Tree>)
    ensures Lawful(CompareTrees(a, b), CompareTrees(b, a), CompareTrees(b, c), CompareTrees(a, c), a == b)
    decreases a
  {
    hide Compare;
    if a != [] && b != [] {
      assert a == [a[0]] + a[1..] && b == [b[0]] + b[1..];
      TreeLaws(a[0], b[0], if c == [] then a[0] else c[0]);
      TreesLaws(a[1..], b[1..], if c == [] then [] else c[1..]);
    }
  }

  /** Names decide before children, children before properties, and those before events. */
  lemma {:induction false} TreeOrderFields(a: Tree, b: Tree)
    ensures a.name != b.name ==> Compare(a, b) == CompareString(a.name, b.name)
    ensures a.name == b.name && a.children != b.children ==> Compare(a, b) == CompareTrees(a.children, b.children)
    ensures a.name == b.name && a.children == b.children && a.properties != b.properties ==>
              Compare(a, b) == CompareSeq(CompareProperty, a.properties, b.properties)
    ensures (a.name, a.children, a.properties) == (b.name, b.children, b.properties) ==>
              Compare(a, b) == CompareSeq(CompareEvent, a.events, b.events)
  {
    hide CompareString, CompareProperty, CompareSeq, CompareEvent, CompareTrees;
    StringTotal();
    assert Laws(CompareString, a.name, b.name, b.name);
    TreesLaws(a.children, b.children, b.children);
    PropertyTotal();
    SeqLaws(CompareProperty, a.properties, b.properties, b.properties);
  }

  // Sorting

  function Insert(t: Tree, sorted: seq<Tree>): seq<Tree> {
    if sorted == [] || Compare(t, sorted[0]) != Greater then [t] + sorted
    else [sorted[0]] + Insert(t, sorted[1..])
  }

  /** The slice sort. The order is total, so that any sorting algorithm gives this. */
  function SortSlice(ts: seq<Tree>): seq<Tree> {
    if ts == [] then [] else Insert(ts[0], SortSlice(ts[1..]))
  }

  /** A tree sorted at every level. */
  function Sorted(t: Tree): Tree {
    t.(children := SortSlice(seq(|t.children|, i requires 0 <= i < |t.children| => Sorted(t.children[i]))))
  }

  method Sort(t: Tree) returns (sorted: Tree)
    ensures sorted == Sorted(t)
    decreases t
  {
    var children := t.children;
    for i := 0 to |children|
      invariant |children| == |t.children|
      invariant forall k :: 0 <= k < i ==> children[k] == Sorted(t.children[k])
      invariant forall k :: i <= k < |children| ==> children[k] == t.children[k]
    {
      var child := Sort(t.children[i]);
      children := children[i := child];
    }
    sorted := t.(children := SortSlice(children));
    assert children == seq(|t.children|, i requires 0 <= i < |t.children| => Sorted(t.children[i]));
  }

  ghost predicate Ascending(ts: seq<Tree>) {
    forall i, j :: 0 <= i < j < |ts| ==> Compare(ts[i], ts[j]) != Greater
  }

  lemma {:induction false} InsertKeepsAll(t: Tree, sorted: seq<Tree>)
    ensures multiset(Insert(t, sorted)) == multiset{t} + multiset(sorted)
  {
    hide Compare;
    if sorted != [] {
      InsertKeepsAll(t, sorted[1..]);
      assert sorted == [sorted[0]] + sorted[1..];
    }
  }

  lemma {:induction false} MemberOf(s: seq<Tree>, t: Tree, rest: seq<Tree>, j: nat) returns (k: nat)
    requires multiset(rest) == multiset{t} + multiset(s) && j < |rest| && rest[j] != t
    ensures k < |s| && s[k] == rest[j]
  {
    assert rest[j] in multiset(rest);
    assert rest[j] in multiset(s);
    k :| 0 <= k < |s| && s[k] == rest[j];
  }

  lemma {:induction false} AscendingFrom(t: Tree, ts: seq<Tree>)
    requires Ascending(ts) && forall j :: 0 <= j < |ts| ==> Compare(t, ts[j]) != Greater
    ensures Ascending([t] + ts)
  {
    hide Compare;
    var all := [t] + ts;
    assert forall i :: 0 < i < |all| ==> all[i] == ts[i - 1];
  }

  lemma {:induction false} InsertSorts(t: Tree, sorted: seq<Tree>)
    requires Ascending(sorted)
    ensures Ascending(Insert(t, sorted))
  {
    hide Compare;
    if sorted == [] {
      AscendingFrom(t, []);
    } else {
      TreeLaws(t, sorted[0], t);
      if Compare(t, sorted[0]) != Greater {
        forall j | 0 <= j < |sorted| ensures Compare(t, sorted[j]) != Greater {
          TreeLaws(t, sorted[0], sorted[j]);
        }
        AscendingFrom(t, sorted);
      } else {
        var rest := Insert(t, sorted[1..]);
        InsertSorts(t, sorted[1..]);
        InsertKeepsAll(t, sorted[1..]);
        forall j | 0 <= j < |rest| ensures Compare(sorted[0], rest[j]) != Greater {
          if rest[j] != t {
            var k := MemberOf(sorted[1..], t, rest, j);
            assert sorted[1..][k] == sorted[k + 1];
          }
        }
        AscendingFrom(sorted[0], rest);
      }
    }
  }

  lemma {:induction false} SliceSorted(ts: seq<Tree>)
    ensures Ascending(SortSlice(ts)) && multiset(SortSlice(ts)) == multiset(ts)
  {
    hide Insert, Compare;
    if ts != [] {
      SliceSorted(ts[1..]);
      InsertSorts(ts[0], SortSlice(ts[1..]));
      InsertKeepsAll(ts[0], SortSlice(ts[1..]));
      assert ts == [ts[0]] + ts[1..];
    }
  }

  lemma {:induction false} SameHead(a: seq<Tree>, b: seq<Tree>)
    requires Ascending(a) && Ascending(b) && multiset(a) == multiset(b) && a != [] && b != []
    ensures a[0] == b[0]
  {
    hide Compare;
    assert a[0] in multiset(b) && b[0] in multiset(a);
    var i :| 0 <= i < |a| && a[i] == b[0];
    var j :| 0 <= j < |b| && b[j] == a[0];
    TreeLaws(a[0], b[0], a[0]);
    assert i > 0 ==> Compare(a[0], a[i]) != Greater;
    assert j > 0 ==> Compare(b[0], b[j]) != Greater;
  }

  lemma {:induction false} TailMultiset(a: seq<Tree>)
    requires a != []
    ensures multiset(a[1..]) == multiset(a) - multiset{a[0]}
  {
    assert a == [a[0]] + a[1..];
  }

  /** There is only one ascending arrangement. */
  lemma {:induction false} AscendingUnique(a: seq<Tree>, b: seq<Tree>)
    requires Ascending(a) && Ascending(b) && multiset(a) == multiset(b)
    ensures a == b
  {
    hide Compare;
    assert |multiset(a)| == |a| && |multiset(b)| == |b|;
    if a != [] {
      SameHead(a, b);
      TailMultiset(a);
      TailMultiset(b);
      AscendingUnique(a[1..], b[1..]);
      assert a == [a[0]] + a[1..] && b == [b[0]] + b[1..];
    }
  }

  // Equal up to the order of siblings

  ghost predicate Permutation(p: seq<nat>, n: nat) {
    && |p| == n && (forall i :: 0 <= i < n ==> p[i] < n)
    && forall i, j :: 0 <= i < j < n ==> p[i] != p[j]
  }

  ghost predicate Rearranged(a: Tree, b: Tree)
    decreases a
  {
    && a.name == b.name && a.properties == b.properties && a.events == b.events
    && exists p: seq<nat> :: RearrangedBy(a, b, p)
  }

  /** Child `i` of the one is child `p[i]` of the other, itself rearranged. */
  ghost predicate RearrangedBy(a: Tree, b: Tree, p: seq<nat>)
    decreases a, 0
  {
    && |a.children| == |b.children| && Permutation(p, |b.children|)
    && forall i :: 0 <= i < |a.children| ==> Rearranged(a.children[i], b.children[p[i]])
  }

  lemma {:induction false} HowRearranged(a: Tree, b: Tree) returns (p: seq<nat>)
    requires Rearranged(a, b)
    ensures RearrangedBy(a, b, p)
  {
    p :| RearrangedBy(a, b, p);
  }

  function Without<T>(s: seq<T>, j: nat): seq<T>
    requires j < |s|
  {
    s[..j] + s[j + 1..]
  }

  lemma {:induction false} WithoutMultiset<T>(s: seq<T>, j: nat)
    requires j < |s|
    ensures multiset(s) == multiset(Without(s, j)) + multiset{s[j]}
  {
    assert s == s[..j] + [s[j]] + s[j + 1..];
  }

  lemma {:induction false} InitMultiset<T>(s: seq<T>)
    requires s != []
    ensures multiset(s) == multiset(Init(s)) + multiset{Last(s)}
  {
    assert s == Init(s) + [Last(s)];
  }

  /** Equal multisets are permutations of each other. */
  lemma {:induction false} PermutationOf<T>(a: seq<T>, b: seq<T>) returns (p: seq<nat>)
    requires multiset(a) == multiset(b)
    ensures |a| == |b| && Permutation(p, |b|) && forall i :: 0 <= i < |a| ==> a[i] == b[p[i]]
    decreases |a|
  {
    assert |multiset(a)| == |a| && |multiset(b)| == |b|;
    p := [];
    if a != [] {
      assert Last(a) in multiset(b);
      var j :| 0 <= j < |b| && b[j] == Last(a);
      RemovedAlike(a, b, j);
      var q := PermutationOf(Init(a), Without(b, j));
      p := LargerPermutation(a, b, j, q);
    }
  }

  lemma {:induction false} RemovedAlike<T>(a: seq<T>, b: seq<T>, j: nat)
    requires multiset(a) == multiset(b) && a != [] && j < |b| && b[j] == Last(a)
    ensures multiset(Init(a)) == multiset(Without(b, j))
  {
    WithoutMultiset(b, j);
    InitMultiset(a);
    assert multiset(Init(a)) == multiset(a) - multiset{Last(a)};
    assert multiset(Without(b, j)) == multiset(b) - multiset{b[j]};
  }

  lemma {:induction false} LargerPermutation<T>(a: seq<T>, b: seq<T>, j: nat, q: seq<nat>) returns (p: seq<nat>)
    requires |a| == |b| && a != [] && j < |b| && b[j] == Last(a)
    requires Permutation(q, |b| - 1) && forall i :: 0 <= i < |a| - 1 ==> Init(a)[i] == Without(b, j)[q[i]]
    ensures Permutation(p, |b|) && forall i :: 0 <= i < |a| ==> a[i] == b[p[i]]
  {
    p := seq(|q|, i requires 0 <= i < |q| => if q[i] < j then q[i] else q[i] + 1) + [j];
    forall i | 0 <= i < |a| ensures a[i] == b[p[i]] {
      if i < |a| - 1 {
        assert Init(a)[i] == Without(b, j)[q[i]];
      }
    }
  }

  lemma {:induction false} PermutedMultiset<T>(a: seq<T>, b: seq<T>, p: seq<nat>)
    requires |a| == |b| && Permutation(p, |b|) && forall i :: 0 <= i < |a| ==> a[i] == b[p[i]]
    ensures multiset(a) == multiset(b)
    decreases |a|
  {
    if a != [] {
      hide Permutation;
      LastPlace(p, |b|);
      var j := Last(p);
      var q := seq(|a| - 1, i requires 0 <= i < |a| - 1 => if p[i] < j then p[i] else p[i] - 1);
      SmallerPermutation(p, q, |b|);
      forall i | 0 <= i < |a| - 1 ensures Init(a)[i] == Without(b, j)[q[i]] {
        assert a[i] == b[p[i]];
      }
      PermutedMultiset(Init(a), Without(b, j), q);
      WithoutMultiset(b, j);
      InitMultiset(a);
    }
  }

  lemma {:induction false} LastPlace(p: seq<nat>, n: nat)
    requires Permutation(p, n) && n > 0
    ensures |p| == n && forall i :: 0 <= i < n ==> p[i] < n && (i < n - 1 ==> p[i] != Last(p))
  {
  }

  lemma {:induction false} SmallerPermutation(p: seq<nat>, q: seq<int>, n: nat)
    requires Permutation(p, n) && n > 0 && |q| == n - 1
    requires forall i :: 0 <= i < n - 1 ==> q[i] == if p[i] < Last(p) then p[i] else p[i] - 1
    ensures (forall i :: 0 <= i < |q| ==> q[i] >= 0) && Permutation(q, n - 1)
  {
    assert forall i :: 0 <= i < n - 1 ==> p[i] != Last(p);
  }

  function SortedEach(ts: seq<Tree>): seq<Tree> {
    seq(|ts|, i requires 0 <= i < |ts| => Sorted(ts[i]))
  }

  lemma {:induction false} SortedParts(t: Tree)
    ensures Sorted(t).name == t.name && Sorted(t).properties == t.properties && Sorted(t).events == t.events
    ensures Sorted(t).children == SortSlice(SortedEach(t.children))
    ensures multiset(Sorted(t).children) == multiset(SortedEach(t.children)) && Ascending(Sorted(t).children)
  {
    hide SortSlice, Ascending;
    assert SortedEach(t.children) == seq(|t.children|, i requires 0 <= i < |t.children| => Sorted(t.children[i]));
    SliceSorted(SortedEach(t.children));
  }

  /** Sorting only rearranges siblings. */
  lemma {:induction false} SortedRearranges(t: Tree)
    ensures Rearranged(t, Sorted(t))
  {
    hide SortSlice, Ascending, Sorted;
    SortedParts(t);
    var each := SortedEach(t.children);
    var p := PermutationOf(each, Sorted(t).children);
    forall i | 0 <= i < |t.children| ensures Rearranged(t.children[i], Sorted(t).children[p[i]]) {
      SortedRearranges(t.children[i]);
    }
    assert RearrangedBy(t, Sorted(t), p);
  }

  /** Two trees have the same sorted form exactly when they differ in nothing but the order of siblings. */
  lemma {:induction false} SortedIsNormalForm(a: Tree, b: Tree)
    ensures Rearranged(a, b) <==> Sorted(a) == Sorted(b)
    decreases a
  {
    hide SortSlice, Ascending, Sorted;
    SortedParts(a);
    SortedParts(b);
    if Rearranged(a, b) {
      var p := HowRearranged(a, b);
      forall i | 0 <= i < |a.children| ensures SortedEach(a.children)[i] == SortedEach(b.children)[p[i]] {
        SortedIsNormalForm(a.children[i], b.children[p[i]]);
      }
      PermutedMultiset(SortedEach(a.children), SortedEach(b.children), p);
      AscendingUnique(Sorted(a).children, Sorted(b).children);
    }
    if Sorted(a) == Sorted(b) {
      var p := PermutationOf(SortedEach(a.children), SortedEach(b.children));
      forall i | 0 <= i < |a.children| ensures Rearranged(a.children[i], b.children[p[i]]) {
        SortedIsNormalForm(a.children[i], b.children[p[i]]);
      }
      assert RearrangedBy(a, b, p);
    }
  }

  lemma {:induction false} SortedChildren(t: Tree)
    ensures |Sorted(t).children| == |t.children|
    ensures |t.children| == 1 ==> Sorted(t).children[0] == Sorted(t.children[0])
  {
    hide SortSlice, Sorted;
    SortedParts(t);
    var p := PermutationOf(SortedEach(t.children), Sorted(t).children);
    assert |t.children| == 1 ==> p[0] == 0;
  }
}
