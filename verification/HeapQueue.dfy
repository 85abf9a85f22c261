/** The binary-heap discipline of `heapq` on a list of `(key, ts, item)` tuples, as
    services/exchange/src/orderbook.py uses it, and the sorted list that such a heap stands for.

    Tuples are compared at the first position where they differ. Entries that tie on `key` and `ts` and hold
    unequal items would so compare two `Order` objects, which have no order, and raise; entries with equal
    items are equal tuples, none less than the other. `Less` therefore looks at `key` and `ts` only, and
    `ValidHeap` asks that no two entries tie on both. */
module HeapQueue {

  datatype Entry<T> = Entry(key: real, ts: real, item: T)

  predicate Less<T>(a: Entry<T>, b: Entry<T>) {
    a.key < b.key || (a.key == b.key && a.ts < b.ts)
  }

  predicate Tie<T>(a: Entry<T>, b: Entry<T>) {
    a.key == b.key && a.ts == b.ts
  }

  function Parent(i: nat): nat
    requires i > 0
  {
    (i - 1) / 2
  }

  ghost predicate IsHeap<T>(h: seq<Entry<T>>) {
    forall j :: 0 < j < |h| ==> !Less(h[j], h[Parent(j)])
  }

  ghost predicate StrictlySorted<T>(s: seq<Entry<T>>) {
    forall i, j :: 0 <= i < j < |s| ==> Less(s[i], s[j])
  }

  // ---------- the sorted list a heap stands for ----------

  ghost function Insert<T>(e: Entry<T>, s: seq<Entry<T>>): (r: seq<Entry<T>>)
    ensures multiset(r) == multiset(s) + multiset{e}
  {
    if s == [] || Less(e, s[0]) then [e] + s
    else assert s == [s[0]] + s[1..]; [s[0]] + Insert(e, s[1..])
  }

  ghost function Sort<T>(h: seq<Entry<T>>): (r: seq<Entry<T>>)
    ensures multiset(r) == multiset(h)
  {
    if h == [] then []
    else assert h == [h[0]] + h[1..]; Insert(h[0], Sort(h[1..]))
  }

  ghost predicate Fresh<T>(e: Entry<T>, h: seq<Entry<T>>) {
    forall x :: x in h ==> !Tie(x, e)
  }

  ghost predicate ValidHeap<T>(h: seq<Entry<T>>) {
    IsHeap(h) && StrictlySorted(Sort(h))
  }

  lemma InMultiset<T>(a: seq<Entry<T>>, b: seq<Entry<T>>, e: Entry<T>)
    requires multiset(a) == multiset(b)
    ensures e in a <==> e in b
  {
    assert e in a <==> e in multiset(a);
  }

  lemma {:induction false} InsertSorted<T>(e: Entry<T>, s: seq<Entry<T>>)
    requires StrictlySorted(s) && Fresh(e, s)
    ensures StrictlySorted(Insert(e, s))
  {
    if s != [] && !Less(e, s[0]) {
      assert s[0] in s;
      var rest := s[1..];
      forall x | x in rest ensures !Tie(x, e) { assert x in s; }
      InsertSorted(e, rest);
      var r := Insert(e, rest);
      forall j | 0 <= j < |r| ensures Less(s[0], r[j]) {
        assert r[j] in multiset(r);
        assert r[j] == e || r[j] in multiset(rest);
        if r[j] != e { assert r[j] in rest; }
      }
    }
  }

  /** With no ties there is only one sorted arrangement of the same entries. */
  lemma {:induction false} SortedUnique<T>(a: seq<Entry<T>>, b: seq<Entry<T>>)
    requires StrictlySorted(a) && StrictlySorted(b)
    requires multiset(a) == multiset(b)
    ensures a == b
  {
    assert |a| == |multiset(a)| == |multiset(b)| == |b|;
    if a != [] {
      InMultiset(a, b, a[0]);
      InMultiset(a, b, b[0]);
      assert a[0] in b && b[0] in a;
      assert a[0] == b[0];
      assert a == [a[0]] + a[1..] && b == [b[0]] + b[1..];
      assert multiset(a[1..]) == multiset(a) - multiset{a[0]};
      assert multiset(b[1..]) == multiset(b) - multiset{b[0]};
      SortedUnique(a[1..], b[1..]);
    }
  }

  /** Pushing a fresh entry is insertion into the sorted list, whatever the new layout. */
  lemma SortAfterPush<T>(h: seq<Entry<T>>, e: Entry<T>, r: seq<Entry<T>>)
    requires ValidHeap(h) && Fresh(e, h) && IsHeap(r)
    requires multiset(r) == multiset(h) + multiset{e}
    ensures ValidHeap(r) && Sort(r) == Insert(e, Sort(h))
  {
    forall x | x in Sort(h) ensures !Tie(x, e) { InMultiset(Sort(h), h, x); }
    InsertSorted(e, Sort(h));
    PermSort(Insert(e, Sort(h)), r);
  }

  lemma {:induction false} SortOfSorted<T>(s: seq<Entry<T>>)
    requires StrictlySorted(s)
    ensures Sort(s) == s
  {
    if s != [] {
      SortOfSorted(s[1..]);
      assert s == [s[0]] + s[1..];
      assert |s| > 1 ==> s[1..][0] == s[1];
    }
  }

  /** A list that can be arranged strictly sorted is sorted to exactly that arrangement. */
  lemma PermSort<T>(s: seq<Entry<T>>, h: seq<Entry<T>>)
    requires StrictlySorted(s) && multiset(s) == multiset(h)
    ensures Sort(h) == s
  {
    SortIsSorted(s, h);
    SortedUnique(s, Sort(h));
  }

  lemma {:induction false} SortIsSorted<T>(s: seq<Entry<T>>, h: seq<Entry<T>>)
    requires StrictlySorted(s) && multiset(s) == multiset(h)
    ensures StrictlySorted(Sort(h))
    decreases |h|
  {
    if h != [] {
      assert h == [h[0]] + h[1..];
      assert multiset(h[1..]) == multiset(h) - multiset{h[0]};
      InMultiset(s, h, h[0]);
      var t := RemoveEntry(s, h[0]);
      assert multiset(t) == multiset(h[1..]);
      SortIsSorted(t, h[1..]);
      forall x | x in Sort(h[1..]) ensures !Tie(x, h[0]) {
        InMultiset(Sort(h[1..]), t, x);
      }
      InsertSorted(h[0], Sort(h[1..]));
    }
  }

  lemma WithoutAt<T>(s: seq<T>, i: nat)
    requires i < |s|
    ensures multiset(s[..i] + s[i+1..]) == multiset(s) - multiset{s[i]}
  {
    assert s == s[..i] + [s[i]] + s[i+1..];
  }

  lemma RemoveEntry<T>(s: seq<Entry<T>>, e: Entry<T>) returns (t: seq<Entry<T>>)
    requires StrictlySorted(s) && e in s
    ensures StrictlySorted(t) && Fresh(e, t)
    ensures multiset(t) == multiset(s) - multiset{e}
  {
    var i :| 0 <= i < |s| && s[i] == e;
    t := s[..i] + s[i+1..];
    WithoutAt(s, i);
    assert forall k :: 0 <= k < |t| ==> t[k] == s[if k < i then k else k + 1];
    forall k | 0 <= k < |t| ensures !Tie(t[k], e) {
      assert if k < i then Less(s[k], s[i]) else Less(s[i], s[k + 1]);
    }
    hide Less, Tie;
    forall j, k | 0 <= j < k < |t| ensures Less(t[j], t[k]) {
      assert Less(s[if j < i then j else j + 1], s[if k < i then k else k + 1]);
    }
  }

  /** The root of a heap is below every entry. */
  lemma {:induction false} RootIsLeast<T>(h: seq<Entry<T>>, i: nat)
    requires IsHeap(h) && i < |h|
    ensures !Less(h[i], h[0])
  {
    if i > 0 {
      RootIsLeast(h, Parent(i));
    }
  }

  /** So the root is the head of the sorted list. */
  lemma RootIsHead<T>(h: seq<Entry<T>>)
    requires ValidHeap(h) && h != []
    ensures |Sort(h)| == |h| && Sort(h)[0] == h[0]
  {
    var s := Sort(h);
    assert |s| == |multiset(s)| == |multiset(h)| == |h|;
    InMultiset(s, h, s[0]);
    InMultiset(s, h, h[0]);
    var i :| 0 <= i < |h| && h[i] == s[0];
    RootIsLeast(h, i);
    var j :| 0 <= j < |s| && s[j] == h[0];
  }

  /** Popping the root removes the head of the sorted list. */
  lemma SortAfterPop<T>(h: seq<Entry<T>>, r: seq<Entry<T>>)
    requires ValidHeap(h) && h != [] && IsHeap(r)
    requires multiset(h) == multiset(r) + multiset{h[0]}
    ensures ValidHeap(r) && |Sort(h)| > 0 && Sort(r) == Sort(h)[1..]
  {
    RootIsHead(h);
    var s := Sort(h);
    assert StrictlySorted(s[1..]);
    hide Less, StrictlySorted, IsHeap, Sort;
    assert s == [s[0]] + s[1..];
    assert multiset(s[1..]) == multiset(s) - multiset{s[0]};
    PermSort(s[1..], r);
  }

  // ---------- the list operations ----------

  function Swap<T>(v: seq<T>, i: nat, j: nat): (w: seq<T>)
    requires i < |v| && j < |v|
    ensures multiset(w) == multiset(v)
  {
    v[i := v[j]][j := v[i]]
  }

  /** Heap order, except that `v[pos]` may still be below its parent. */
  ghost predicate RisingAt<T>(v: seq<Entry<T>>, pos: nat) {
    && pos < |v|
    && (forall j :: 0 < j < |v| && j != pos ==> !Less(v[j], v[Parent(j)]))
    && (pos > 0 ==> forall j :: 0 < j < |v| && Parent(j) == pos ==> !Less(v[j], v[Parent(pos)]))
  }

  /** Heap order, except that `v[pos]` may be above or below any of its neighbours. */
  ghost predicate FallingAt<T>(v: seq<Entry<T>>, pos: nat) {
    && pos < |v|
    && (forall j :: 0 < j < |v| && j != pos && Parent(j) != pos ==> !Less(v[j], v[Parent(j)]))
    && (pos > 0 ==> forall j :: 0 < j < |v| && Parent(j) == pos ==> !Less(v[j], v[Parent(pos)]))
  }

  lemma RiseStep<T>(v: seq<Entry<T>>, pos: nat)
    requires RisingAt(v, pos) && pos > 0 && Less(v[pos], v[Parent(pos)])
    ensures RisingAt(Swap(v, pos, Parent(pos)), Parent(pos))
  {
    var p := Parent(pos);
    var w := Swap(v, pos, p);
    forall j | 0 < j < |w| && j != p ensures !Less(w[j], w[Parent(j)]) {
      assert !Less(v[p], v[pos]);
      if j != pos { assert !Less(v[j], v[Parent(j)]); }
    }
    if p > 0 {
      forall j | 0 < j < |w| && Parent(j) == p ensures !Less(w[j], w[Parent(p)]) {
        assert !Less(v[p], v[Parent(p)]);
        if j != pos { assert !Less(v[j], v[Parent(j)]); }
      }
    }
  }

  lemma FallStep<T>(v: seq<Entry<T>>, pos: nat, child: nat)
    requires FallingAt(v, pos) && 0 < child < |v| && 2 * pos + 1 <= child <= 2 * pos + 2
    requires !Less(v[2 * pos + 1], v[child])
    requires 2 * pos + 2 < |v| ==> !Less(v[2 * pos + 2], v[child])
    ensures FallingAt(Swap(v, pos, child), child)
  {
    var w := Swap(v, pos, child);
    forall j | 0 < j < |w| && j != child && Parent(j) != child ensures !Less(w[j], w[Parent(j)]) {
      if Parent(j) == pos { assert j == 2 * pos + 1 || j == 2 * pos + 2; }
    }
    forall j | 0 < j < |w| && Parent(j) == child ensures !Less(w[j], w[Parent(child)]) {
      assert !Less(v[j], v[Parent(j)]);
    }
  }

  /** Copying `v[other]` into the hole at `pos` moves the hole to `other`. */
  lemma HoleMoves<T>(v: seq<T>, h: seq<T>, pos: nat, other: nat, x: T)
    requires pos < |h| && other < |h| && pos != other && v == h[pos := x]
    ensures Swap(v, pos, other) == h[pos := h[other]][other := x]
  {
  }

  /** An entry that is not below its parent has risen far enough. */
  lemma Risen<T>(v: seq<Entry<T>>, pos: nat)
    requires RisingAt(v, pos) && (pos == 0 || !Less(v[pos], v[Parent(pos)]))
    ensures IsHeap(v)
  {
    hide Less;
  }

  /** Moves the entry at `start` up while it is below its parent. */
  method SiftDown<T>(heap: seq<Entry<T>>, start: nat) returns (h: seq<Entry<T>>)
    requires RisingAt(heap, start)
    ensures IsHeap(h) && multiset(h) == multiset(heap)
  {
    h := heap;
    var pos := start;
    assert pos < |heap|;
    hide RisingAt, Less, IsHeap;
    var newItem := h[pos];
    ghost var v := heap;  // the list with the moving entry put back into the hole at pos
    while pos > 0
      invariant RisingAt(v, pos) && pos < |h| == |v| && v == h[pos := newItem]
      invariant multiset(v) == multiset(heap)
    {
      var parentPos := Parent(pos);
      var parent := h[parentPos];
      assert v[pos] == newItem && v[parentPos] == parent;
      if Less(newItem, parent) {
        RiseStep(v, pos);
        HoleMoves(v, h, pos, parentPos, newItem);
        v := Swap(v, pos, parentPos);
        h := h[pos := parent];
        pos := parentPos;
      } else {
        break;
      }
    }
    Risen(v, pos);
    h := h[pos := newItem];
  }

  function SmallerChild<T>(h: seq<Entry<T>>, pos: nat): (child: nat)
    requires 2 * pos + 1 < |h|
    ensures child < |h| && 2 * pos + 1 <= child <= 2 * pos + 2
    ensures !Less(h[2 * pos + 1], h[child])
    ensures 2 * pos + 2 < |h| ==> !Less(h[2 * pos + 2], h[child])
  {
    var left, right := 2 * pos + 1, 2 * pos + 2;
    if right < |h| && !Less(h[left], h[right]) then right else left
  }

  lemma LeafIsRising<T>(v: seq<Entry<T>>, pos: nat)
    requires FallingAt(v, pos) && 2 * pos + 1 >= |v|
    ensures RisingAt(v, pos)
  {
  }

  /** Lets the smaller child rise into the hole at the root until a leaf is reached, then
      puts the displaced entry there and moves it up again. */
  method SiftUp<T>(heap: seq<Entry<T>>) returns (h: seq<Entry<T>>)
    requires FallingAt(heap, 0)
    ensures IsHeap(h) && multiset(h) == multiset(heap)
  {
    h := heap;
    var newItem, pos := h[0], 0;
    ghost var v := heap;  // the list with the displaced entry put back into the hole at pos
    while 2 * pos + 1 < |h|
      invariant FallingAt(v, pos) && |h| == |v| && v == h[pos := newItem]
      invariant multiset(v) == multiset(heap)
    {
      var childPos := SmallerChild(h, pos);
      FallStep(v, pos, childPos);
      HoleMoves(v, h, pos, childPos, newItem);
      v := Swap(v, pos, childPos);
      h := h[pos := h[childPos]];
      pos := childPos;
    }
    h := h[pos := newItem];
    LeafIsRising(v, pos);
    h := SiftDown(h, pos);
  }

  method HeapPop<T>(heap: seq<Entry<T>>) returns (h: seq<Entry<T>>, least: Entry<T>)
    requires ValidHeap(heap) && heap != []
    ensures ValidHeap(h) && Sort(heap) == [least] + Sort(h)
    ensures multiset(heap) == multiset(h) + multiset{least}
  {
    var last := heap[|heap| - 1];
    h := heap[..|heap| - 1];
    assert heap == h + [last];
    if h == [] {
      least := last;
    } else {
      least := h[0];
      h := h[0 := last];
      h := SiftUp(h);
    }
    SortAfterPop(heap, h);
    RootIsHead(heap);
  }

  // ---------- pushing an entry that ties ----------

  /** `k` lies on the way from position `pos` up to the root. */
  predicate OnPath(k: nat, pos: nat) {
    pos > 0 && (k == Parent(pos) || OnPath(k, Parent(pos)))
  }

  /** The upward move from `pos` compares `e` with an entry that ties and holds an item not among `alike`,
      those that equal the item of `e`. A tie with an equal item ends the move. */
  predicate Raises<T(==)>(h: seq<Entry<T>>, e: Entry<T>, alike: set<T>, pos: nat)
    requires pos <= |h|
  {
    pos > 0 &&
    var parent := h[Parent(pos)];
    if Tie(parent, e) then parent.item !in alike else Less(e, parent) && Raises(h, e, alike, Parent(pos))
  }

  /** Of the entries on the way from `pos` to the root that tie with `e`, entry `k` is the first. */
  ghost predicate FirstTie<T>(h: seq<Entry<T>>, e: Entry<T>, pos: nat, k: nat) {
    && k < |h| && OnPath(k, pos) && Tie(h[k], e)
    && forall j: nat :: k < j < |h| && OnPath(j, pos) ==> !Tie(h[j], e)
  }

  lemma {:induction false} PathRises<T>(h: seq<Entry<T>>, k: nat, pos: nat)
    requires IsHeap(h) && pos < |h| && OnPath(k, pos)
    ensures k < pos && !Less(h[pos], h[k])
  {
    if k != Parent(pos) { PathRises(h, k, Parent(pos)); }
  }

  /** It raises exactly when there is a tie on the way to the root and the first one, nearest to the leaf,
      holds an item that does not equal the new one. */
  lemma {:induction false} RaisesExactly<T>(h: seq<Entry<T>>, e: Entry<T>, alike: set<T>, pos: nat)
    requires IsHeap(h) && pos <= |h|
    ensures Raises(h, e, alike, pos) <==> exists k: nat :: FirstTie(h, e, pos, k) && h[k].item !in alike
  {
    if pos > 0 {
      var p := Parent(pos);
      RaisesExactly(h, e, alike, p);
      forall k: nat | k < |h| && OnPath(k, pos) ensures k <= p && (k != p ==> OnPath(k, p)) {
        if k != p { PathRises(h, k, p); }
      }
      if Tie(h[p], e) {
        assert FirstTie(h, e, pos, p);
        assert forall k: nat :: FirstTie(h, e, pos, k) ==> k == p;
      } else if !Less(e, h[p]) {
        forall k: nat | k < |h| && OnPath(k, pos) ensures !Tie(h[k], e) {
          if k != p { PathRises(h, k, p); }
        }
      } else {
        forall k: nat ensures FirstTie(h, e, pos, k) <==> FirstTie(h, e, p, k) { FirstTieAbove(h, e, pos, k); }
      }
    }
  }

  /** Without a tie at the parent the first tie is found from there. */
  lemma FirstTieAbove<T>(h: seq<Entry<T>>, e: Entry<T>, pos: nat, k: nat)
    requires 0 < pos <= |h| && !Tie(h[Parent(pos)], e)
    ensures FirstTie(h, e, pos, k) <==> FirstTie(h, e, Parent(pos), k)
  {
    assert forall j: nat :: OnPath(j, pos) <==> j == Parent(pos) || OnPath(j, Parent(pos));
  }

  /** `heappush`, where `alike` are the items on the heap that equal the new one; not `ok` stands for the
      TypeError of comparing two items. It is raised exactly when the first tie on the way from the new leaf
      to the root is with an unequal item; any other tie goes unnoticed. Without ties the sorted list gains
      the entry at its place. */
  method HeapPush<T(==)>(heap: seq<Entry<T>>, e: Entry<T>, alike: set<T>) returns (ok: bool, h: seq<Entry<T>>)
    requires IsHeap(heap)
    ensures !ok <==> exists k: nat :: FirstTie(heap, e, |heap|, k) && heap[k].item !in alike
    ensures ok ==> IsHeap(h) && multiset(h) == multiset(heap) + multiset{e}
    ensures ValidHeap(heap) && Fresh(e, heap) ==> ok && ValidHeap(h) && Sort(h) == Insert(e, Sort(heap))
  {
    RaisesExactly(heap, e, alike, |heap|);
    if Raises(heap, e, alike, |heap|) {
      return false, heap;
    }
    h := SiftDown(heap + [e], |heap|);
    if ValidHeap(heap) && Fresh(e, heap) {
      SortAfterPush(heap, e, h);
    }
    return true, h;
  }
}
