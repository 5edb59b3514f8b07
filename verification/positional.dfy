/** Positional access with Python / numpy conventions: a negative position counts
    from the end. `Rects` (numpy columns) and the layer order and visibility
    lists (Python lists) both follow these rules; they differ only in `insert`,
    where numpy refuses an out-of-range position and a Python list clamps it. */
module Positional {
  import opened Errors

  /** Resolves a possibly negative position against a sequence of length n. */
  function Norm(i: int, n: nat): (k: int)
    ensures InRange(i, n) ==> 0 <= k < n
    ensures InsertRange(i, n) ==> 0 <= k <= n
  {
    if i < 0 then i + n else i
  }

  /** Positions accepted by get, set, delete and move: -n <= i < n. */
  predicate InRange(i: int, n: nat) {
    -(n as int) <= i < n
  }

  /** Positions accepted by numpy's insert: -n <= i <= n. */
  predicate InsertRange(i: int, n: nat) {
    -(n as int) <= i <= n
  }

  /** The storage position a handler uses for a layer-list selection `p`:
      the list shows the topmost (last stored) layer first. */
  function Mirror(p: int): int {
    -(p + 1)
  }

  /** A selection inside the list resolves to the mirrored storage position. */
  lemma MirrorResolves(p: int, n: nat)
    requires 0 <= p < n
    ensures InRange(Mirror(p), n)
    ensures Norm(Mirror(p), n) == n - 1 - p
  {
  }

  /** "Nothing selected" (-1) resolves to storage position 0, the bottom layer. */
  lemma MirrorOfNoSelection(n: nat)
    requires 0 < n
    ensures InRange(Mirror(-1), n) && Norm(Mirror(-1), n) == 0
  {
  }

  // ---------------------------------------------------------------------------
  // Total operations on resolved (non-negative) positions

  function InsertAt<T>(s: seq<T>, k: nat, v: T): (r: seq<T>)
    requires k <= |s|
    ensures |r| == |s| + 1
    ensures r[k] == v
    ensures forall j :: 0 <= j < k ==> r[j] == s[j]
    ensures forall j :: k < j <= |s| ==> r[j] == s[j - 1]
  {
    s[..k] + [v] + s[k..]
  }

  function RemoveAt<T>(s: seq<T>, k: nat): (r: seq<T>)
    requires k < |s|
    ensures |r| == |s| - 1
    ensures forall j :: 0 <= j < k ==> r[j] == s[j]
    ensures forall j :: k <= j < |r| ==> r[j] == s[j + 1]
  {
    s[..k] + s[k + 1..]
  }

  function SwapAt<T>(s: seq<T>, a: nat, b: nat): (r: seq<T>)
    requires a < |s| && b < |s|
    ensures |r| == |s|
    ensures r[a] == s[b] && r[b] == s[a]
    ensures forall j :: 0 <= j < |s| && j != a && j != b ==> r[j] == s[j]
    ensures multiset(r) == multiset(s)
  {
    s[a := s[b]][b := s[a]]
  }

  // ---------------------------------------------------------------------------
  // Checked operations, as numpy arrays and Python lists perform them

  /** `np.append` / `list.append`. */
  function Append<T>(s: seq<T>, v: T): (r: seq<T>)
    ensures |r| == |s| + 1
    ensures r[|s|] == v
    ensures forall j :: 0 <= j < |s| ==> r[j] == s[j]
  {
    s + [v]
  }

  /** `np.insert(a, i, v)`: IndexError unless -n <= i <= n. */
  function Insert<T>(s: seq<T>, i: int, v: T): (r: Result<seq<T>>)
    ensures r.Ok? <==> InsertRange(i, |s|)
    ensures r.Ok? ==> |r.value| == |s| + 1 && r.value[Norm(i, |s|)] == v
    ensures r.Ok? ==> forall j :: 0 <= j < Norm(i, |s|) ==> r.value[j] == s[j]
    ensures r.Ok? ==> forall j :: Norm(i, |s|) < j <= |s| ==> r.value[j] == s[j - 1]
  {
    if InsertRange(i, |s|) then Ok(InsertAt(s, Norm(i, |s|), v)) else Err(IndexError)
  }

  /** `list.insert(i, v)`: never fails; an out-of-range position is clamped to
      the nearest end. */
  function ListInsert<T>(s: seq<T>, i: int, v: T): (r: seq<T>)
    ensures |r| == |s| + 1
    ensures i < -|s| ==> r[0] == v
    ensures i > |s| ==> r[|s|] == v
    ensures i < -|s| ==> r == [v] + s
    ensures i > |s| ==> r == s + [v]
  {
    var k := if i < 0 then i + |s| else i;
    var c := if k < 0 then 0 else if k > |s| then |s| else k;
    InsertAt(s, c, v)
  }

  /** `np.delete(a, i)` / `del list[i]`: IndexError unless -n <= i < n. */
  function Delete<T>(s: seq<T>, i: int): (r: Result<seq<T>>)
    ensures r.Ok? <==> InRange(i, |s|)
    ensures r.Ok? ==> |r.value| + 1 == |s|
    ensures r.Ok? ==> forall j :: 0 <= j < Norm(i, |s|) ==> r.value[j] == s[j]
    ensures r.Ok? ==> forall j :: Norm(i, |s|) <= j < |r.value| ==> r.value[j] == s[j + 1]
  {
    if InRange(i, |s|) then Ok(RemoveAt(s, Norm(i, |s|))) else Err(IndexError)
  }

  /** `a[i]` read. */
  function Get<T>(s: seq<T>, i: int): (r: Result<T>)
    ensures r.Ok? <==> InRange(i, |s|)
    ensures r.Ok? ==> r.value == s[Norm(i, |s|)]
  {
    if InRange(i, |s|) then Ok(s[Norm(i, |s|)]) else Err(IndexError)
  }

  /** `a[i] = v`. */
  function Set<T>(s: seq<T>, i: int, v: T): (r: Result<seq<T>>)
    ensures r.Ok? <==> InRange(i, |s|)
    ensures r.Ok? ==> |r.value| == |s| && r.value[Norm(i, |s|)] == v
    ensures r.Ok? ==> forall j :: 0 <= j < |s| && j != Norm(i, |s|) ==> r.value[j] == s[j]
  {
    if InRange(i, |s|) then Ok(s[Norm(i, |s|) := v]) else Err(IndexError)
  }

  /** `a[i], a[j] = a[j], a[i]` (and numpy's `rects[:, [i, j]] = rects[:, [j, i]]`). */
  function Swap<T>(s: seq<T>, i: int, j: int): (r: Result<seq<T>>)
    ensures r.Ok? <==> InRange(i, |s|) && InRange(j, |s|)
    ensures r.Ok? ==> r.value == SwapAt(s, Norm(i, |s|), Norm(j, |s|))
    ensures r.Ok? ==> multiset(r.value) == multiset(s)
  {
    if InRange(i, |s|) && InRange(j, |s|) then Ok(SwapAt(s, Norm(i, |s|), Norm(j, |s|)))
    else Err(IndexError)
  }

  // ---------------------------------------------------------------------------
  // Properties

  /** Appending is inserting at the end. */
  lemma AppendIsInsertAtEnd<T>(s: seq<T>, v: T)
    ensures Insert(s, |s|, v) == Ok(Append(s, v))
  {
    assert s[..|s|] + [v] + s[|s|..] == s + [v];
  }

  /** Deleting at the resolved position of an insert restores the original. */
  lemma InsertDeleteRoundTrip<T>(s: seq<T>, i: int, v: T)
    requires InsertRange(i, |s|)
    ensures Insert(s, i, v).Ok?
    ensures Delete(Insert(s, i, v).value, Norm(i, |s|)) == Ok(s)
  {
    var k := Norm(i, |s|);
    var t := InsertAt(s, k, v);
    assert RemoveAt(t, k) == s;
  }

  /** Reusing the same negative position does not undo the insert: on the
      longer array it resolves one further, so it removes the element that
      followed the inserted one, which stays in its place. */
  lemma NegativeReuseRemovesNeighbour<T>(s: seq<T>, i: int, v: T)
    requires -|s| <= i < 0
    ensures Insert(s, i, v).Ok?
    ensures Delete(Insert(s, i, v).value, i) == Ok(s[Norm(i, |s|) := v])
  {
    var k := Norm(i, |s|);
    var t := InsertAt(s, k, v);
    assert Norm(i, |t|) == k + 1;
    assert RemoveAt(t, k + 1) == s[k := v];
  }

  /** A set position reads back the stored value; every other position reads
      what it read before. */
  lemma SetThenGet<T>(s: seq<T>, i: int, v: T, j: int)
    requires InRange(i, |s|)
    ensures Set(s, i, v).Ok?
    ensures Get(Set(s, i, v).value, i) == Ok(v)
    ensures InRange(j, |s|) && Norm(j, |s|) != Norm(i, |s|) ==>
              Get(Set(s, i, v).value, j) == Get(s, j)
  {
  }

  /** Inside numpy's accepted range a list insert agrees with numpy's. */
  lemma ListInsertAgrees<T>(s: seq<T>, i: int, v: T)
    requires InsertRange(i, |s|)
    ensures Insert(s, i, v) == Ok(ListInsert(s, i, v))
  {
  }

  /** Swapping a position with itself, or the same pair twice, changes nothing. */
  lemma SwapInvolution<T>(s: seq<T>, i: int, j: int)
    requires InRange(i, |s|) && InRange(j, |s|)
    ensures Swap(s, i, i) == Ok(s)
    ensures Swap(Swap(s, i, j).value, i, j) == Ok(s)
  {
    var a, b := Norm(i, |s|), Norm(j, |s|);
    assert SwapAt(s, a, a) == s;
    assert SwapAt(SwapAt(s, a, b), a, b) == s;
  }
}
