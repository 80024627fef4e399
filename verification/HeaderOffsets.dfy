/**
 * The tensor entries of a stream header: written back to back, read back in the order of their names, and sorted
 * again by their first offset only.
 */
module HeaderOffsets {
  import opened Basics
  import opened Schema
  import opened Sorting

  /** An element type as the safetensors library names it; the codec knows only some of them. */
  datatype StoredDtype = Known(dtype: Dtype) | Foreign(bits: nat)

  datatype Info = Info(name: string, dtype: StoredDtype, shape: seq<nat>, begin: nat, end: nat)

  function DtypeBits(dtype: Dtype): nat {
    match dtype
    case F4 => 4
    case F6E2M3 => 6
    case F6E3M2 => 6
    case Boolean => 8
    case UInt8 => 8
    case Int8 => 8
    case F8E4M3 => 8
    case F8E5M2 => 8
    case F8E8M0 => 8
    case UInt16 => 16
    case Int16 => 16
    case F16 => 16
    case BF16 => 16
    case UInt32 => 32
    case Int32 => 32
    case F32 => 32
    case UInt64 => 64
    case Int64 => 64
    case F64 => 64
    case C64 => 64
  }

  function Bits(dtype: StoredDtype): nat {
    match dtype case Known(d) => DtypeBits(d) case Foreign(bits) => bits
  }

  /** The checked product of the sizes. */
  function Elements(shape: seq<nat>): Option<nat> {
    if shape == [] then Some(1)
    else
      match Elements(shape[..|shape| - 1])
      case None => None
      case Some(n) => if n * shape[|shape| - 1] < U64_LIMIT then Some(n * shape[|shape| - 1]) else None
  }

  /** The number of bytes of a dense tensor, unless it overflows or ends within a byte. */
  function ByteSize(dtype: StoredDtype, shape: seq<nat>): Option<nat> {
    match Elements(shape)
    case None => None
    case Some(n) =>
      var bits := n * Bits(dtype);
      if bits < U64_LIMIT && bits % 8 == 0 then Some(bits / 8) else None
  }

  function Product(shape: seq<nat>): nat {
    if shape == [] then 1 else shape[0] * Product(shape[1..])
  }

  lemma {:induction false} ProductSnoc(shape: seq<nat>, size: nat)
    ensures Product(shape + [size]) == Product(shape) * size
    decreases |shape|
  {
    if shape == [] {
      assert ([] + [size])[1..] == [];
    } else {
      ProductSnoc(shape[1..], size);
      assert (shape + [size])[1..] == shape[1..] + [size];
      assert shape[0] * (Product(shape[1..]) * size) == shape[0] * Product(shape[1..]) * size;
    }
  }

  /** Multiplying from the left, no product on the way overflows. */
  predicate Multiplies(shape: seq<nat>) {
    forall k :: 0 <= k <= |shape| ==> Product(shape[..k]) < U64_LIMIT
  }

  lemma {:induction false} ElementsExactly(shape: seq<nat>)
    ensures Elements(shape) == if Multiplies(shape) then Some(Product(shape)) else None
    decreases |shape|
  {
    if shape == [] {
      assert Product([]) == 1;
    } else {
      var n := |shape| - 1;
      var front := shape[..n];
      ElementsExactly(front);
      ProductSnoc(front, shape[n]);
      assert shape == front + [shape[n]] && shape[..|shape|] == shape;
      assert forall k :: 0 <= k <= n ==> shape[..k] == front[..k];
      if Multiplies(front) && Product(shape) < U64_LIMIT {
        forall k | 0 <= k <= |shape| ensures Product(shape[..k]) < U64_LIMIT { assert k <= n ==> shape[..k] == front[..k]; }
      }
      if Multiplies(shape) {
        assert Product(shape[..|shape|]) < U64_LIMIT;
        forall k | 0 <= k <= n ensures Product(front[..k]) < U64_LIMIT { assert shape[..k] == front[..k]; }
      }
    }
  }

  /** The size of a dense tensor, outright: eight bits a byte for the product of its sizes. */
  lemma ByteSizeExactly(dtype: StoredDtype, shape: seq<nat>, bytes: nat)
    ensures ByteSize(dtype, shape) == Some(bytes)
      <==> Multiplies(shape) && Product(shape) * Bits(dtype) < U64_LIMIT && 8 * bytes == Product(shape) * Bits(dtype)
  {
    ElementsExactly(shape);
    var bits := Product(shape) * Bits(dtype);
    assert bits % 8 == 0 ==> 8 * (bits / 8) == bits;
  }

  predicate SizeOk(info: Info) {
    info.begin <= info.end && ByteSize(info.dtype, info.shape) == Some(info.end - info.begin)
  }

  /** What the safetensors library requires of offsets: from 0, back to back, of the right sizes. */
  predicate Contiguous(infos: seq<Info>) {
    && (forall i :: 0 <= i < |infos| ==> SizeOk(infos[i]))
    && (|infos| > 0 ==> infos[0].begin == 0)
    && (forall i :: 0 < i < |infos| ==> infos[i].begin == infos[i - 1].end)
  }

  function DataLen(infos: seq<Info>): nat {
    if infos == [] then 0 else infos[|infos| - 1].end
  }

  function BeginLess(): (Info, Info) -> bool {
    (x: Info, y: Info) => x.begin < y.begin
  }

  /** `infos.sort_by_key(|(_, info)| info.data_offsets.0)`. */
  function SortByBegin(infos: seq<Info>): seq<Info> {
    SortBy(infos, BeginLess())
  }

  /** An entry with data stands before another one that begins at the same offset. */
  predicate Clash(infos: seq<Info>) {
    exists i, j :: 0 <= i < j < |infos| && infos[i].begin == infos[j].begin && infos[i].begin < infos[i].end
  }

  predicate DistinctNames(infos: seq<Info>) {
    forall i, j :: 0 <= i < j < |infos| ==> infos[i].name != infos[j].name
  }

  ghost predicate SameMembers(a: seq<Info>, b: seq<Info>) {
    |a| == |b| && forall x :: x in a <==> x in b
  }

  // ---------------------------------------------------------------------------
  // Sorting keeps and makes no clash
  // ---------------------------------------------------------------------------

  predicate ClashesWith(s: seq<Info>, x: Info) {
    exists y :: y in s && y.begin == x.begin && y.begin < y.end
  }

  lemma ClashLast(s: seq<Info>, x: Info)
    ensures Clash(s + [x]) <==> Clash(s) || ClashesWith(s, x)
  {
    var all := s + [x];
    if Clash(all) {
      var i, j :| 0 <= i < j < |all| && all[i].begin == all[j].begin && all[i].begin < all[i].end;
      if j == |s| { assert s[i] in s; } else { assert s[i].begin == s[j].begin; }
    }
    if Clash(s) {
      var i, j :| 0 <= i < j < |s| && s[i].begin == s[j].begin && s[i].begin < s[i].end;
      assert all[i].begin == all[j].begin;
    }
    if ClashesWith(s, x) {
      var y :| y in s && y.begin == x.begin && y.begin < y.end;
      var i :| 0 <= i < |s| && s[i] == y;
      assert all[i].begin == all[|s|].begin;
    }
  }

  lemma {:induction false} ClashInserted(s: seq<Info>, x: Info)
    requires SortedBy(s, BeginLess())
    ensures Clash(InsertBy(s, x, BeginLess())) <==> Clash(s) || ClashesWith(s, x)
    decreases |s|
  {
    if s == [] || s[|s| - 1].begin <= x.begin {
      ClashLast(s, x);
    } else {
      var front, last := s[..|s| - 1], s[|s| - 1];
      assert s == front + [last];
      ClashInserted(front, x);
      ClashLast(front, last);
      ClashLast(InsertBy(front, x, BeginLess()), last);
      InsertedMembers(front, x, BeginLess());
      assert forall y :: y in s <==> y in front || y == last;
    }
  }

  lemma {:induction false} ClashSorted(s: seq<Info>)
    ensures Clash(SortByBegin(s)) <==> Clash(s)
    decreases |s|
  {
    if s != [] {
      var front, last := s[..|s| - 1], s[|s| - 1];
      assert s == front + [last];
      ClashSorted(front);
      SortByIsSorted(front, BeginLess());
      SortedMembers(front, BeginLess());
      ClashInserted(SortByBegin(front), last);
      ClashLast(front, last);
    }
  }

  // ---------------------------------------------------------------------------
  // Offsets after the sort
  // ---------------------------------------------------------------------------

  lemma {:induction false} Ascends(infos: seq<Info>, i: nat, j: nat)
    requires Contiguous(infos) && i < j < |infos|
    ensures infos[i].end <= infos[j].begin
    decreases j
  {
    if i < j - 1 {
      Ascends(infos, i, j - 1);
      assert SizeOk(infos[j - 1]);
    }
  }

  /** Contiguous entries never clash. */
  lemma ContiguousDoesNotClash(infos: seq<Info>)
    requires Contiguous(infos)
    ensures !Clash(infos)
  {
    forall i, j | 0 <= i < j < |infos| ensures !(infos[i].begin == infos[j].begin && infos[i].begin < infos[i].end) {
      Ascends(infos, i, j);
    }
  }

  ghost function IndexOf(infos: seq<Info>, x: Info): (i: nat)
    requires x in infos
    ensures i < |infos| && infos[i] == x
  {
    var i :| 0 <= i < |infos| && infos[i] == x;
    i
  }

  lemma ContiguousFacts(infos: seq<Info>)
    requires Contiguous(infos)
    ensures forall i, j :: 0 <= i < j < |infos| ==> infos[i].begin <= infos[i].end <= infos[j].begin
  {
    forall i, j | 0 <= i < j < |infos| ensures infos[i].begin <= infos[i].end <= infos[j].begin {
      Ascends(infos, i, j);
      assert SizeOk(infos[i]);
    }
  }

  lemma SortedFacts(infos: seq<Info>)
    requires SortedBy(infos, BeginLess())
    ensures forall i, j :: 0 <= i <= j < |infos| ==> infos[i].begin <= infos[j].begin
  {
    forall i, j | 0 <= i <= j < |infos| ensures infos[i].begin <= infos[j].begin {
      assert i < j ==> !BeginLess()(infos[j], infos[i]);
    }
  }

  /** `s` is a sorted reading of the contiguous `written`, without clash. */
  ghost predicate Reading(written: seq<Info>, s: seq<Info>) {
    Contiguous(written) && SameMembers(written, s) && DistinctNames(s) && SortedBy(s, BeginLess()) && !Clash(s)
  }

  /** From an empty entry of the written order on, everything begins at its offset until something has data. */
  lemma {:induction false} EmptyRun(written: seq<Info>, s: seq<Info>, i: nat, p: nat, q: nat)
    requires Reading(written, s)
    requires 0 < i < |s| && s[i - 1].begin == s[i - 1].end && s[i - 1].begin < s[i].begin
    requires p <= q < |written| && written[p] == s[i - 1]
    ensures written[q].begin == s[i - 1].begin == written[q].end
    decreases q
  {
    if q > p {
      EmptyRun(written, s, i, p, q - 1);
      SortedFacts(s);
      var z := written[q];
      assert SizeOk(z) && z in written && z.begin == s[i - 1].begin;
      var k := IndexOf(s, z);
      assert k <= i - 1;
      assert k < i - 1 ==> !(s[k].begin < s[k].end);
    }
  }

  /** After an entry with data comes, in sorted order, one that begins where it ends. */
  lemma DataThenNext(written: seq<Info>, s: seq<Info>, i: nat, p: nat, q: nat)
    requires Reading(written, s)
    requires 0 < i < |s| && s[i - 1].begin < s[i - 1].end
    requires p < |written| && q < |written| && written[p] == s[i - 1] && written[q] == s[i]
    ensures s[i].begin == s[i - 1].end
  {
    SortedFacts(s);
    ContiguousFacts(written);
    assert s[i - 1].begin != s[i].begin;
    assert p < q;
    var z := written[p + 1];
    assert z in written && z.begin == s[i - 1].end && z.begin <= s[i].begin;
    var k := IndexOf(s, z);
    assert k >= i;
  }

  /** Neighbours of a sorted order without clash meet. */
  lemma Meet(written: seq<Info>, s: seq<Info>, i: nat)
    requires Reading(written, s) && 0 < i < |s|
    ensures s[i].begin == s[i - 1].end
  {
    var x, y := s[i - 1], s[i];
    var p, q := IndexOf(written, x), IndexOf(written, y);
    SortedFacts(s);
    ContiguousFacts(written);
    assert SizeOk(written[p]) && x.name != y.name;
    if x.begin < x.end {
      DataThenNext(written, s, i, p, q);
    } else if p < q && x.begin < y.begin {
      EmptyRun(written, s, i, p, q);
    }
  }

  /** The first of a sorted order begins at 0. */
  lemma MeetFirst(written: seq<Info>, s: seq<Info>)
    requires Reading(written, s) && s != []
    ensures s[0].begin == 0
  {
    SortedFacts(s);
    assert written[0] in written;
    var k := IndexOf(s, written[0]);
  }

  lemma ReadingIsContiguous(written: seq<Info>, s: seq<Info>)
    requires Reading(written, s)
    ensures Contiguous(s) && DataLen(s) == DataLen(written)
  {
    forall i | 0 <= i < |s| ensures SizeOk(s[i]) {
      assert s[i] in s;
      assert SizeOk(written[IndexOf(written, s[i])]);
    }
    forall i | 0 < i < |s| ensures s[i].begin == s[i - 1].end { Meet(written, s, i); }
    if s != [] {
      MeetFirst(written, s);
      LastEnds(written, s);
      LastEnds(s, written);
    }
  }

  lemma LastEnds(a: seq<Info>, b: seq<Info>)
    requires Contiguous(a) && SameMembers(a, b) && a != []
    ensures forall i :: 0 <= i < |b| ==> b[i].end <= DataLen(a)
  {
    ContiguousFacts(a);
    forall i | 0 <= i < |b| ensures b[i].end <= DataLen(a) {
      assert b[i] in b;
      var k := IndexOf(a, b[i]);
      assert SizeOk(a[k]) && SizeOk(a[|a| - 1]);
    }
  }

  /**
   * Entries written back to back and read in any order are accepted after the sort exactly when no entry with data
   * was read before another one that begins at the same offset. Only an empty tensor can begin where another one
   * does, so headers without empty tensors are always accepted.
   */
  lemma SortedOffsetsExactly(written: seq<Info>, read: seq<Info>)
    requires Contiguous(written) && SameMembers(written, read) && DistinctNames(read)
    ensures Contiguous(SortByBegin(read)) <==> !Clash(read)
    ensures !Clash(read) ==> DataLen(SortByBegin(read)) == DataLen(written)
  {
    var s := SortByBegin(read);
    SortByIsSorted(read, BeginLess());
    SortedMembers(read, BeginLess());
    ClashSorted(read);
    if Contiguous(s) { ContiguousDoesNotClash(s); }
    if !Clash(read) {
      SortedDistinct(read);
      ReadingIsContiguous(written, s);
    }
  }

  function NameApart(): (Info, Info) -> bool {
    (x: Info, y: Info) => x.name != y.name
  }

  lemma SortedDistinct(infos: seq<Info>)
    requires DistinctNames(infos)
    ensures DistinctNames(SortByBegin(infos))
  {
    SortedPairwise(infos, BeginLess(), NameApart());
    var s := SortByBegin(infos);
    forall i, j | 0 <= i < j < |s| ensures s[i].name != s[j].name { assert NameApart()(s[i], s[j]); }
  }

  // ---------------------------------------------------------------------------
  // Names
  // ---------------------------------------------------------------------------

  /** The order of strings, character by character. */
  predicate NameLess(a: string, b: string) {
    b != [] && (a == [] || a[0] < b[0] || (a[0] == b[0] && NameLess(a[1..], b[1..])))
  }

  lemma {:induction false} NameLessIsStrict(a: string, b: string)
    ensures !(NameLess(a, b) && NameLess(b, a))
    ensures NameLess(a, b) || NameLess(b, a) || a == b
    decreases |a|
  {
    if a != [] && b != [] && a[0] == b[0] {
      NameLessIsStrict(a[1..], b[1..]);
      assert a == [a[0]] + a[1..] && b == [b[0]] + b[1..];
    }
  }

  lemma {:induction false} NameLessSplits(a: string, b: string, c: string)
    requires NameLess(a, b)
    ensures NameLess(a, c) || NameLess(c, b)
    decreases |a|
  {
    if a != [] && c != [] && a[0] == b[0] == c[0] { NameLessSplits(a[1..], b[1..], c[1..]); }
  }

  function InfoNameLess(): (Info, Info) -> bool {
    (x: Info, y: Info) => NameLess(x.name, y.name)
  }

  lemma NamesAreOrdered()
    ensures Ordering(InfoNameLess())
  {
    forall x, y | InfoNameLess()(x, y) ensures !InfoNameLess()(y, x) { NameLessIsStrict(x.name, y.name); }
    forall x, y, z | InfoNameLess()(x, y) ensures InfoNameLess()(x, z) || InfoNameLess()(z, y) {
      NameLessSplits(x.name, y.name, z.name);
    }
  }

  /** The entries in the order of their names, as a JSON object that keeps its keys sorted yields them. */
  function SortByName(infos: seq<Info>): seq<Info> {
    SortBy(infos, InfoNameLess())
  }

  lemma NamesSorted(infos: seq<Info>)
    requires DistinctNames(infos)
    ensures SameMembers(infos, SortByName(infos)) && DistinctNames(SortByName(infos))
    ensures var s := SortByName(infos); forall i, j :: 0 <= i < j < |s| ==> NameLess(s[i].name, s[j].name)
  {
    NamesAreOrdered();
    SortByIsSorted(infos, InfoNameLess());
    SortedMembers(infos, InfoNameLess());
    SortedPairwise(infos, InfoNameLess(), NameApart());
    var s := SortByName(infos);
    forall i, j | 0 <= i < j < |s| ensures NameLess(s[i].name, s[j].name) && s[i].name != s[j].name {
      assert !InfoNameLess()(s[j], s[i]) && NameApart()(s[i], s[j]);
      NameLessIsStrict(s[i].name, s[j].name);
    }
  }

  // ---------------------------------------------------------------------------
  // The clash, in terms of what was written
  // ---------------------------------------------------------------------------

  /** From `a` on there are only empty entries up to `b`, which has data and an earlier name. */
  predicate EmptyBefore(written: seq<Info>, a: nat, b: nat) {
    && a < b < |written| && (forall c :: a <= c < b ==> written[c].begin == written[c].end)
    && written[b].begin < written[b].end && NameLess(written[b].name, written[a].name)
  }

  lemma {:induction false} EmptyRunBegins(written: seq<Info>, a: nat, b: nat)
    requires Contiguous(written) && a <= b < |written|
    requires forall c :: a <= c < b ==> written[c].begin == written[c].end
    ensures written[b].begin == written[a].begin
    decreases b
  {
    if a < b { EmptyRunBegins(written, a, b - 1); }
  }

  lemma ClashIsWritten(written: seq<Info>, i: nat, j: nat) returns (a: nat, b: nat)
    requires Contiguous(written) && DistinctNames(written)
    requires var read := SortByName(written);
      i < j < |read| && read[i].begin == read[j].begin && read[i].begin < read[i].end
    ensures EmptyBefore(written, a, b)
  {
    var read := SortByName(written);
    NamesSorted(written);
    ContiguousFacts(written);
    assert read[i] in read && read[j] in read;
    b, a := IndexOf(written, read[i]), IndexOf(written, read[j]);
    assert NameLess(read[i].name, read[j].name) && read[i].name != read[j].name;
    assert a != b && SizeOk(written[a]) && SizeOk(written[b]);
    assert a < b;
    forall c | a <= c < b ensures written[c].begin == written[c].end { assert SizeOk(written[c]); }
  }

  lemma WrittenClashes(written: seq<Info>, a: nat, b: nat)
    requires Contiguous(written) && DistinctNames(written) && EmptyBefore(written, a, b)
    ensures Clash(SortByName(written))
  {
    var read := SortByName(written);
    NamesSorted(written);
    EmptyRunBegins(written, a, b);
    assert written[a] in written && written[b] in written;
    var i, j := IndexOf(read, written[b]), IndexOf(read, written[a]);
    NameLessIsStrict(written[a].name, written[b].name);
    assert i < j;
  }

  /**
   * Entries written back to back and read in the order of their names clash exactly when an empty one is written
   * ahead of one with data, with nothing but empty ones between them, although its name comes later.
   */
  lemma ClashExactly(written: seq<Info>)
    requires Contiguous(written) && DistinctNames(written)
    ensures Clash(SortByName(written)) <==> exists a, b :: EmptyBefore(written, a, b)
  {
    var read := SortByName(written);
    if Clash(read) {
      var i, j :| 0 <= i < j < |read| && read[i].begin == read[j].begin && read[i].begin < read[i].end;
      var a, b := ClashIsWritten(written, i, j);
    }
    if a: nat, b: nat :| EmptyBefore(written, a, b) { WrittenClashes(written, a, b); }
  }
}
