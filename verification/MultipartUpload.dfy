/** Multipart upload: the size check, the part count, the parts a client cuts, and completing the upload with
    the parts in any order. The object store concatenates the listed parts and refuses a list that does not ascend. */
module MultipartUpload {
  import opened Wrappers

  newtype Byte = b: int | 0 <= b < 256

  const PART_SIZE := 8 * 1024 * 1024
  const MAX_DOCUMENT_SIZE := 500 * 1024 * 1024
  const MAX_PART_NUMBER := 10000

  // ---------- Sizes and part numbers ----------

  /** validateMultipartSize does not throw; a JavaScript number need not be an integer. */
  predicate ValidSize(size: real) {
    size.Floor as real == size && size > 0.0 && size <= MAX_DOCUMENT_SIZE as real
  }

  /** Math.ceil */
  function Ceil(x: real): int {
    -((-x).Floor)
  }

  function PartCount(size: real): int {
    Ceil(size / PART_SIZE as real)
  }

  /** presignMultipartPart accepts the number. */
  predicate ValidPartNumber(n: int) {
    !(n < 1 || n > MAX_PART_NUMBER)
  }

  /** The first and the last byte position of a part, as the client cuts the file. */
  function PartStart(n: nat): int {
    (n - 1) * PART_SIZE
  }

  function PartEnd(n: nat, size: nat): int {
    if PartStart(n) + PART_SIZE < size then PartStart(n) + PART_SIZE else size
  }

  /** In numbers: the accepted sizes are the whole numbers from 1 to 524,288,000, the accepted part numbers those from
      1 to 10,000, and part n begins at byte 8,388,608 (n - 1). */
  lemma AcceptedInNumbers(size: real, bytes: int, n: nat)
    ensures ValidSize(size) ==> size == size.Floor as real
    ensures ValidSize(bytes as real) <==> 1 <= bytes <= 524288000
    ensures ValidPartNumber(n) <==> 1 <= n <= 10000
    ensures PartStart(n) == 8388608 * (n - 1)
  {
    assert (bytes as real).Floor == bytes;
  }

  lemma PartCountIsExact(size: nat)
    ensures PART_SIZE * (PartCount(size as real) - 1) < size <= PART_SIZE * PartCount(size as real) || size == 0
    ensures PartCount(size as real) >= 0
  {
    var q := size as real / PART_SIZE as real;
    assert q * PART_SIZE as real == size as real;
    var count := PartCount(size as real);
    assert count as real - 1.0 < q <= count as real;
    assert (count as real - 1.0) * PART_SIZE as real < size as real <= count as real * PART_SIZE as real;
  }

  predicate InPart(n: nat, position: nat, size: nat) {
    PartStart(n) <= position < PartEnd(n, size)
  }

  ghost predicate InExactlyOnePart(position: nat, size: nat, count: int) {
    exists n: nat :: 1 <= n <= count && InPart(n, position, size)
                     && forall m: nat :: 1 <= m <= count && InPart(m, position, size) ==> m == n
  }

  predicate PartFits(n: nat, size: nat, count: int) {
    && ValidPartNumber(n)
    && 0 <= PartStart(n) < PartEnd(n, size) <= size
    && (n < count ==> PartEnd(n, size) == PartStart(n) + PART_SIZE == PartStart(n + 1))
    && (n == count ==> PartEnd(n, size) == size)
  }

  /** Parts 1..partCount of an accepted document all pass the presign bound, none is empty, only the last may be
      short, and every byte lies in exactly one of them. */
  lemma PartsCoverEachByteOnce(size: nat, count: int)
    requires ValidSize(size as real) && count == PartCount(size as real)
    ensures count >= 1
    ensures forall n: nat :: 1 <= n <= count ==> PartFits(n, size, count)
    ensures forall position: nat :: position < size ==> InExactlyOnePart(position, size, count)
  {
    PartCountIsExact(size);
    assert 0 < size <= MAX_DOCUMENT_SIZE;
    forall position: nat | position < size
      ensures InExactlyOnePart(position, size, count)
    {
      OnePartPerByte(position, size, count);
    }
  }

  lemma OnePartPerByte(position: nat, size: nat, count: int)
    requires position < size <= PART_SIZE * count
    ensures InExactlyOnePart(position, size, count)
  {
    var n: nat := position / PART_SIZE + 1;
    assert 1 <= n <= count && InPart(n, position, size);
    forall m: nat | 1 <= m <= count && InPart(m, position, size)
      ensures m == n
    {
    }
  }

  // ---------- The store ----------

  datatype Part = Part(number: int, etag: string)

  datatype Uploaded = Uploaded(etag: string, bytes: seq<Byte>)

  predicate Ascending(parts: seq<Part>) {
    forall i :: 0 < i < |parts| ==> parts[i - 1].number < parts[i].number
  }

  function Concatenated(store: map<int, Uploaded>, parts: seq<Part>): seq<Byte>
    requires forall i :: 0 <= i < |parts| ==> parts[i].number in store
  {
    if parts == [] then [] else Concatenated(store, parts[..|parts| - 1]) + store[parts[|parts| - 1].number].bytes
  }

  /** The object that completing the upload creates, or None if the store refuses the list. */
  function Assemble(store: map<int, Uploaded>, parts: seq<Part>): Option<seq<Byte>> {
    if parts != [] && Ascending(parts)
       && forall i :: 0 <= i < |parts| ==> parts[i].number in store && store[parts[i].number].etag == parts[i].etag
    then Some(Concatenated(store, parts))
    else None
  }

  // ---------- Sorting in place ----------

  function Insert(parts: seq<Part>, p: Part): seq<Part> {
    if parts == [] || parts[|parts| - 1].number <= p.number then parts + [p]
    else Insert(parts[..|parts| - 1], p) + [parts[|parts| - 1]]
  }

  /** The stable sort by part number. */
  function Sorted(parts: seq<Part>): seq<Part> {
    if parts == [] then [] else Insert(Sorted(parts[..|parts| - 1]), parts[|parts| - 1])
  }

  lemma {:induction false} InsertLength(parts: seq<Part>, p: Part)
    ensures |Insert(parts, p)| == |parts| + 1
  {
    if parts != [] {
      InsertLength(parts[..|parts| - 1], p);
    }
  }

  /** Part p after the first j of the sorted parts. */
  function Placed(done: seq<Part>, p: Part, j: nat): seq<Part>
    requires j <= |done|
  {
    done[..j] + [p] + done[j..]
  }

  /** The sort puts a part after the last one that is not greater. */
  lemma {:induction false} InsertIsPlaced(done: seq<Part>, p: Part, j: nat)
    requires j <= |done| && (0 < j ==> done[j - 1].number <= p.number)
    requires forall k :: j <= k < |done| ==> done[k].number > p.number
    ensures Insert(done, p) == Placed(done, p, j)
  {
    if j < |done| {
      var before, last := done[..|done| - 1], done[|done| - 1];
      InsertIsPlaced(before, p, j);
      assert done == before + [last];
      assert before[..j] == done[..j];
      assert before[j..] + [last] == (before + [last])[j..];
    } else {
      assert done[..j] == done && done[j..] == [];
    }
  }

  /** Part p has moved down from place i to place j, past greater parts only. */
  predicate MovedDown(parts: seq<Part>, before: seq<Part>, i: nat, j: nat)
    requires j <= i < |before| == |parts|
  {
    && (forall k :: 0 <= k < |parts| && (k < j || k > i) ==> parts[k] == before[k])
    && parts[j] == before[i]
    && (forall k :: j < k <= i ==> parts[k] == before[k - 1] && parts[k].number > before[i].number)
  }

  lemma MovedDownIsInserted(parts: seq<Part>, before: seq<Part>, i: nat, j: nat)
    requires j <= i < |before| == |parts| && MovedDown(parts, before, i, j)
    requires 0 < j ==> parts[j - 1].number <= parts[j].number
    ensures parts == Insert(before[..i], before[i]) + before[i + 1..]
  {
    var done := before[..i];
    forall k | j <= k < i
      ensures done[k].number > before[i].number
    {
      assert parts[k + 1] == before[k];
    }
    InsertIsPlaced(done, before[i], j);
    var placed := Placed(done, before[i], j);
    forall k | 0 <= k < |parts|
      ensures parts[k] == (placed + before[i + 1..])[k]
    {
      if k <= i {
        assert placed[k] == if k < j then done[k] else if k == j then before[i] else done[k - 1];
      }
    }
  }

  /** Moves part i down to its place among the parts before it. */
  method InsertAt(parts: array<Part>, i: nat)
    requires i < parts.Length
    modifies parts
    ensures parts[..] == Insert(old(parts[..i]), old(parts[i])) + old(parts[i + 1..])
  {
    var j := i;
    while j > 0 && parts[j - 1].number > parts[j].number
      invariant 0 <= j <= i
      invariant MovedDown(parts[..], old(parts[..]), i, j)
    {
      parts[j - 1], parts[j] := parts[j], parts[j - 1];
      j := j - 1;
    }
    MovedDownIsInserted(parts[..], old(parts[..]), i, j);
    assert old(parts[..])[..i] == old(parts[..i]) && old(parts[..])[i + 1..] == old(parts[i + 1..]);
  }

  method SortParts(parts: array<Part>)
    modifies parts
    ensures parts[..] == Sorted(old(parts[..]))
  {
    ghost var before := parts[..];
    for i := 0 to parts.Length
      invariant parts[..i] == Sorted(before[..i])
      invariant parts[i..] == before[i..]
    {
      assert parts[i] == parts[i..][0] == before[i];
      assert before[..i + 1][..i] == before[..i];
      assert parts[i + 1..] == parts[i..][1..] == before[i + 1..];
      InsertLength(parts[..i], parts[i]);
      InsertAt(parts, i);
    }
    assert parts[..parts.Length] == parts[..] && before[..parts.Length] == before;
  }

  /** completeMultipartUpload: sorts the caller's array in place and hands the store the result. */
  method CompleteMultipartUpload(store: map<int, Uploaded>, parts: array<Part>) returns (object_: Option<seq<Byte>>)
    modifies parts
    ensures parts.Length == 0 ==> object_.None?
    ensures parts[..] == Sorted(old(parts[..]))
    ensures object_ == Assemble(store, parts[..])
  {
    if parts.Length == 0 {
      return None; // "At least one uploaded part is required"
    }
    SortParts(parts);
    return Assemble(store, parts[..]);
  }

  predicate InOrder(parts: seq<Part>) {
    forall i, j :: 0 <= i < j < |parts| ==> parts[i].number <= parts[j].number
  }

  lemma {:induction false} InsertKeeps(parts: seq<Part>, p: Part)
    ensures multiset(Insert(parts, p)) == multiset(parts) + multiset{p}
  {
    if parts != [] && parts[|parts| - 1].number > p.number {
      InsertKeeps(parts[..|parts| - 1], p);
      assert parts == parts[..|parts| - 1] + [parts[|parts| - 1]];
    }
  }

  /** An upper bound of the numbers stays one. */
  lemma {:induction false} InsertBelow(parts: seq<Part>, p: Part, number: int)
    requires p.number <= number && forall i :: 0 <= i < |parts| ==> parts[i].number <= number
    ensures forall i :: 0 <= i < |Insert(parts, p)| ==> Insert(parts, p)[i].number <= number
  {
    if parts != [] {
      InsertBelow(parts[..|parts| - 1], p, number);
    }
  }

  lemma {:induction false} InsertOrders(parts: seq<Part>, p: Part)
    requires InOrder(parts)
    ensures InOrder(Insert(parts, p))
  {
    if parts != [] && parts[|parts| - 1].number > p.number {
      InsertOrders(parts[..|parts| - 1], p);
      InsertBelow(parts[..|parts| - 1], p, parts[|parts| - 1].number);
    }
  }

  /** Sorting orders the parts and keeps each of them. */
  lemma {:induction false} SortedSorts(parts: seq<Part>)
    ensures InOrder(Sorted(parts)) && multiset(Sorted(parts)) == multiset(parts)
  {
    if parts != [] {
      SortedSorts(parts[..|parts| - 1]);
      InsertKeeps(Sorted(parts[..|parts| - 1]), parts[|parts| - 1]);
      InsertOrders(Sorted(parts[..|parts| - 1]), parts[|parts| - 1]);
      assert parts == parts[..|parts| - 1] + [parts[|parts| - 1]];
    }
  }

  lemma WithoutLast(a: seq<Part>)
    requires a != []
    ensures multiset(a[..|a| - 1]) == multiset(a) - multiset{a[|a| - 1]}
  {
    assert a == a[..|a| - 1] + [a[|a| - 1]];
    assert multiset(a) == multiset(a[..|a| - 1]) + multiset{a[|a| - 1]};
  }

  lemma SameLast(a: seq<Part>, b: seq<Part>)
    requires InOrder(a) && Ascending(b) && multiset(a) == multiset(b) && a != [] && b != []
    ensures a[|a| - 1] == b[|b| - 1] && multiset(a[..|a| - 1]) == multiset(b[..|b| - 1])
  {
    var x, y := a[|a| - 1], b[|b| - 1];
    assert x in multiset(b) && y in multiset(a);
    LastIsLargest(b, x);
    assert x == y;
    WithoutLast(a);
    WithoutLast(b);
  }

  lemma SameLength(a: seq<Part>, b: seq<Part>)
    requires multiset(a) == multiset(b)
    ensures |a| == |b|
  {
    assert |multiset(a)| == |a| && |multiset(b)| == |b|;
  }

  /** Only one order is sorted when no two numbers agree. */
  lemma {:induction false} SortedIsUnique(a: seq<Part>, b: seq<Part>)
    requires InOrder(a) && Ascending(b) && multiset(a) == multiset(b)
    ensures a == b
  {
    SameLength(a, b);
    if b != [] {
      SameLast(a, b);
      var front, front' := a[..|a| - 1], b[..|b| - 1];
      SortedIsUnique(front, front');
      assert a == front + [a[|a| - 1]] && b == front' + [b[|b| - 1]];
    }
  }

  lemma {:induction false} LastIsLargest(b: seq<Part>, x: Part)
    requires Ascending(b) && x in b
    ensures x.number <= b[|b| - 1].number && (x.number == b[|b| - 1].number ==> x == b[|b| - 1])
  {
    var last := b[|b| - 1];
    if x != last {
      LastIsLargest(b[..|b| - 1], x);
    }
  }

  // ---------- The document comes back ----------

  /** The parts a client uploads, with the entity tags it was given for them. */
  function ClientParts(count: nat, etags: seq<string>): seq<Part>
    requires count == |etags|
  {
    seq(count, k requires 0 <= k < count => Part(k + 1, etags[k]))
  }

  /** The store holds the slice of every part the client cut. */
  ghost predicate Holds(store: map<int, Uploaded>, document: seq<Byte>, etags: seq<string>, count: nat) {
    forall n: nat :: 1 <= n <= count ==> HoldsPart(store, document, etags, n)
  }

  predicate HoldsPart(store: map<int, Uploaded>, document: seq<Byte>, etags: seq<string>, n: nat) {
    && 1 <= n <= |etags| && n in store
    && 0 <= PartStart(n) <= PartEnd(n, |document|) <= |document|
    && store[n] == Uploaded(etags[n - 1], document[PartStart(n)..PartEnd(n, |document|)])
  }

  lemma {:induction false} SlicesJoin(store: map<int, Uploaded>, document: seq<Byte>, etags: seq<string>, count: nat)
    requires count <= |etags| && Holds(store, document, etags, count)
    requires forall n: nat :: 1 <= n < count ==> PartEnd(n, |document|) == PartStart(n + 1)
    ensures var parts := ClientParts(count, etags[..count]);
            && (forall i :: 0 <= i < |parts| ==> parts[i].number in store)
            && Concatenated(store, parts) == if count == 0 then [] else document[..PartEnd(count, |document|)]
  {
    var parts := ClientParts(count, etags[..count]);
    forall i | 0 <= i < |parts|
      ensures parts[i].number in store
    {
      assert HoldsPart(store, document, etags, i + 1);
    }
    if count > 0 {
      SlicesJoin(store, document, etags, count - 1);
      assert parts[..count - 1] == ClientParts(count - 1, etags[..count - 1]);
      assert HoldsPart(store, document, etags, count);
      if count > 1 {
        assert PartEnd(count - 1, |document|) == PartStart(count);
      }
    }
  }

  lemma AllPartsAssemble(document: seq<Byte>, etags: seq<string>, store: map<int, Uploaded>)
    requires ValidSize(|document| as real) && |etags| == PartCount(|document| as real)
    requires Holds(store, document, etags, |etags|)
    ensures Assemble(store, ClientParts(|etags|, etags)) == Some(document)
  {
    var parts := ClientParts(|etags|, etags);
    PartsCoverEachByteOnce(|document|, |etags|);
    forall n: nat | 1 <= n <= |etags|
      ensures n < |etags| ==> PartEnd(n, |document|) == PartStart(n + 1)
      ensures n == |etags| ==> PartEnd(n, |document|) == |document|
    {
      assert PartFits(n, |document|, |etags|);
    }
    forall i | 0 <= i < |parts|
      ensures parts[i].number in store && store[parts[i].number].etag == parts[i].etag
    {
      assert HoldsPart(store, document, etags, i + 1);
    }
    assert etags[..|etags|] == etags && document[..|document|] == document;
    SlicesJoin(store, document, etags, |etags|);
  }

  /** For every document of an accepted size: once its parts are uploaded, completing with them in any order
      creates the document again. */
  lemma AnyOrderReassembles(document: seq<Byte>, etags: seq<string>, store: map<int, Uploaded>, listed: seq<Part>)
    requires ValidSize(|document| as real) && |etags| == PartCount(|document| as real)
    requires Holds(store, document, etags, |etags|)
    requires multiset(listed) == multiset(ClientParts(|etags|, etags))
    ensures Assemble(store, Sorted(listed)) == Some(document)
  {
    SortedSorts(listed);
    SortedIsUnique(Sorted(listed), ClientParts(|etags|, etags));
    AllPartsAssemble(document, etags, store);
  }
}
