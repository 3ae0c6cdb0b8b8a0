/** The canonical byte string behind a CUDA assignment fingerprint. */
module Assignment {
  import opened Bytes
  import opened Results

  datatype Record = Record(provider: Bytes, node: Bytes, domain: Bytes, operatorType: Bytes)

  const U64_BOUND := 0x1_0000_0000_0000_0000

  // ---- The order records are sorted by ----------------------------------------------

  predicate BytesLe(a: Bytes, b: Bytes) {
    a == [] || (b != [] && (a[0] < b[0] || (a[0] == b[0] && BytesLe(a[1..], b[1..]))))
  }

  function Tail(a: Bytes): Bytes { if a == [] then [] else a[1..] }

  lemma {:induction false} BytesLeIsTotalOrder(a: Bytes, b: Bytes, c: Bytes)
    ensures BytesLe(a, b) || BytesLe(b, a)
    ensures BytesLe(a, b) && BytesLe(b, a) ==> a == b
    ensures BytesLe(a, b) && BytesLe(b, c) ==> BytesLe(a, c)
    decreases |a|
  {
    if a != [] {
      BytesLeIsTotalOrder(Tail(a), Tail(b), Tail(c));
      assert a == [a[0]] + Tail(a) && (b != [] ==> b == [b[0]] + Tail(b));
    }
  }

  /** Lexicographic on the fields in declaration order. */
  predicate RecordLe(a: Record, b: Record) {
    if a.provider != b.provider then BytesLe(a.provider, b.provider)
    else if a.node != b.node then BytesLe(a.node, b.node)
    else if a.domain != b.domain then BytesLe(a.domain, b.domain)
    else BytesLe(a.operatorType, b.operatorType)
  }

  lemma RecordLeIsTotalOrder(a: Record, b: Record, c: Record)
    ensures RecordLe(a, b) || RecordLe(b, a)
    ensures RecordLe(a, b) && RecordLe(b, a) ==> a == b
    ensures RecordLe(a, b) && RecordLe(b, c) ==> RecordLe(a, c)
  {
    hide BytesLe;
    BytesLeIsTotalOrder(a.provider, b.provider, c.provider);
    BytesLeIsTotalOrder(b.provider, c.provider, a.provider);
    BytesLeIsTotalOrder(a.node, b.node, c.node);
    BytesLeIsTotalOrder(b.node, c.node, a.node);
    BytesLeIsTotalOrder(a.domain, b.domain, c.domain);
    BytesLeIsTotalOrder(b.domain, c.domain, a.domain);
    BytesLeIsTotalOrder(a.operatorType, b.operatorType, c.operatorType);
  }

  predicate Sorted(s: seq<Record>) {
    forall i, j :: 0 <= i < j < |s| ==> RecordLe(s[i], s[j])
  }

  lemma LeastFirst(s: seq<Record>, x: Record)
    requires Sorted(s) && x in multiset(s)
    ensures s != [] && (x == s[0] || RecordLe(s[0], x))
  {
    hide RecordLe;
    assert x in s;
  }

  lemma SortedTail(s: seq<Record>)
    requires s != []
    ensures Sorted(s) ==> Sorted(s[1..])
    ensures multiset(s) == multiset{s[0]} + multiset(s[1..])
  {
    hide RecordLe;
    assert s == [s[0]] + s[1..];
  }

  /** A list has one sorted arrangement. */
  lemma {:induction false} SortedUnique(a: seq<Record>, b: seq<Record>)
    requires Sorted(a) && Sorted(b) && multiset(a) == multiset(b)
    ensures a == b
    decreases |a|
  {
    hide Sorted, RecordLe;
    assert |a| == |multiset(a)| == |multiset(b)| == |b|;
    if a != [] {
      assert a[0] in multiset(a) && b[0] in multiset(b);
      LeastFirst(a, b[0]);
      LeastFirst(b, a[0]);
      RecordLeIsTotalOrder(a[0], b[0], a[0]);
      SortedTail(a);
      SortedTail(b);
      assert multiset(a[1..]) == multiset(a) - multiset{a[0]};
      assert multiset(b[1..]) == multiset(b) - multiset{b[0]};
      SortedUnique(a[1..], b[1..]);
      assert a == [a[0]] + a[1..] && b == [b[0]] + b[1..];
    }
  }

  // ---- The encoding -----------------------------------------------------------------

  predicate FitsU64(n: nat) { n < U64_BOUND }

  function U64Bytes(n: nat): (r: Bytes)
    ensures |r| == 8
  {
    BigEndian(n, 8)
  }

  function Field(bytes: Bytes): Bytes { U64Bytes(|bytes|) + bytes }

  function Fields(r: Record): Bytes {
    Field(r.provider) + (Field(r.node) + (Field(r.domain) + Field(r.operatorType)))
  }

  predicate RecordFits(r: Record) {
    FitsU64(|r.provider|) && FitsU64(|r.node|) && FitsU64(|r.domain|) && FitsU64(|r.operatorType|)
  }

  predicate Fits(records: seq<Record>) {
    FitsU64(|records|) && forall i :: 0 <= i < |records| ==> RecordFits(records[i])
  }

  /** The length of the leading run of equal records. */
  function RunLength(records: seq<Record>): (k: nat)
    requires records != []
    ensures 1 <= k <= |records|
    ensures forall i :: 0 <= i < k ==> records[i] == records[0]
    ensures k < |records| ==> records[k] != records[0]
  {
    if |records| > 1 && records[1] == records[0] then 1 + RunLength(records[1..]) else 1
  }

  function Groups(records: seq<Record>): Bytes {
    if records == [] then []
    else
      var k := RunLength(records);
      U64Bytes(k) + (Fields(records[0]) + Groups(records[k..]))
  }

  const DOMAIN: Bytes := Ascii("gigaam-v3-runtime/cuda-assignment/v1")

  function Ascii(text: string): (r: Bytes)
    ensures |r| == |text|
  {
    seq(|text|, i requires 0 <= i < |text| => (text[i] as int) % 256)
  }

  /** Everything fed to the hash. */
  function Encoding(records: seq<Record>): Bytes {
    Field(DOMAIN) + (U64Bytes(|records|) + Groups(records))
  }

  // ---- The layout of the encoding -----------------------------------------------------

  /** Eight bytes at `at` spell `n`, the most significant first. */
  ghost predicate Spells(bytes: Bytes, at: nat, n: nat) {
    at + 8 <= |bytes| && forall i: nat :: at <= i < at + 8 ==> bytes[i] == n / Power256(at + 7 - i) % 256
  }

  /** A field at `at`: its length, then its bytes. */
  ghost predicate HoldsField(bytes: Bytes, at: nat, field: Bytes) {
    Spells(bytes, at, |field|) && at + 8 + |field| <= |bytes| && bytes[at + 8..at + 8 + |field|] == field
  }

  /** One group at `at`: how often the record occurs, then its provider, node, domain and operator type. */
  ghost predicate HoldsGroup(bytes: Bytes, at: nat, times: nat, r: Record) {
    var node := at + 16 + |r.provider|;
    var domain := node + 8 + |r.node|;
    var operatorType := domain + 8 + |r.domain|;
    && Spells(bytes, at, times) && HoldsField(bytes, at + 8, r.provider) && HoldsField(bytes, node, r.node)
    && HoldsField(bytes, domain, r.domain) && HoldsField(bytes, operatorType, r.operatorType)
  }

  lemma SpellsU64(a: Bytes, n: nat, b: Bytes)
    ensures Spells(a + (U64Bytes(n) + b), |a|, n)
  {
    hide BigEndian, Power256;
    var bytes := a + (U64Bytes(n) + b);
    forall i: nat | |a| <= i < |a| + 8 ensures bytes[i] == n / Power256(|a| + 7 - i) % 256 {
      BigEndianDigit(n, 8, i - |a|);
    }
  }

  lemma HoldsWritten(a: Bytes, field: Bytes, b: Bytes)
    ensures HoldsField(a + (Field(field) + b), |a|, field)
  {
    hide Spells, U64Bytes;
    SpellsU64(a, |field|, field + b);
    assert a + (Field(field) + b) == a + (U64Bytes(|field|) + (field + b));
  }

  lemma GroupHeld(a: Bytes, k: nat, r: Record, b: Bytes)
    ensures HoldsGroup(a + (U64Bytes(k) + (Fields(r) + b)), |a|, k, r)
  {
    hide Spells, HoldsField, U64Bytes, Field;
    var bytes := a + (U64Bytes(k) + (Fields(r) + b));
    SpellsU64(a, k, Fields(r) + b);
    var p, n, d, o := Field(r.provider), Field(r.node), Field(r.domain), Field(r.operatorType);
    var start := a + U64Bytes(k);
    HoldsWritten(start, r.provider, n + (d + (o + b)));
    HoldsWritten(start + p, r.node, d + (o + b));
    HoldsWritten(start + p + n, r.domain, o + b);
    HoldsWritten(start + p + n + d, r.operatorType, b);
    FieldLength(r.provider); FieldLength(r.node); FieldLength(r.domain);
    assert bytes == start + (p + (n + (d + (o + b))));
    assert bytes == start + p + (n + (d + (o + b)));
    assert bytes == start + p + n + (d + (o + b));
    assert bytes == start + p + n + d + (o + b);
  }

  lemma FieldLength(field: Bytes)
    ensures |Field(field)| == 8 + |field|
  {
  }

  /** The encoding opens with the domain and the number of records; then comes one group for each run of equal
      records, the first of which is this. */
  lemma EncodingLayout(records: seq<Record>)
    ensures var bytes, start := Encoding(records), 16 + |DOMAIN|;
      && HoldsField(bytes, 0, DOMAIN) && Spells(bytes, start - 8, |records|)
      && (records != [] ==>
            && HoldsGroup(bytes, start, RunLength(records), records[0])
            && bytes[start + 8 + |Fields(records[0])|..] == Groups(records[RunLength(records)..]))
  {
    hide HoldsField, HoldsGroup, Spells, U64Bytes, Field, Fields, RunLength, Ascii;
    var bytes := Encoding(records);
    FieldLength(DOMAIN);
    HoldsWritten([], DOMAIN, U64Bytes(|records|) + Groups(records));
    assert [] + (Field(DOMAIN) + (U64Bytes(|records|) + Groups(records))) == bytes;
    SpellsU64(Field(DOMAIN), |records|, Groups(records));
    if records != [] {
      var k := RunLength(records);
      var head := Field(DOMAIN) + U64Bytes(|records|);
      GroupHeld(head, k, records[0], Groups(records[k..]));
      assert bytes == head + (U64Bytes(k) + (Fields(records[0]) + Groups(records[k..])));
    }
  }

  // ---- The encoding loses nothing ---------------------------------------------------

  lemma U64Injective(m: nat, n: nat)
    requires FitsU64(m) && FitsU64(n) && U64Bytes(m) == U64Bytes(n)
    ensures m == n
  {
    Power256Known();
    BigEndianRoundTrip(m, 8);
    BigEndianRoundTrip(n, 8);
  }

  lemma Cut(a: Bytes, b: Bytes, x: Bytes, y: Bytes)
    requires a + x == b + y && |a| == |b|
    ensures a == b && x == y
  {
    assert a == (a + x)[..|a|] && b == (b + y)[..|b|];
    assert x == (a + x)[|a|..] && y == (b + y)[|b|..];
  }

  /** A length-prefixed field can be read back whatever follows it. */
  lemma FieldCut(a: Bytes, b: Bytes, x: Bytes, y: Bytes)
    requires FitsU64(|a|) && FitsU64(|b|) && Field(a) + x == Field(b) + y
    ensures a == b && x == y
  {
    hide U64Bytes;
    assert Field(a) + x == U64Bytes(|a|) + (a + x) && Field(b) + y == U64Bytes(|b|) + (b + y);
    Cut(U64Bytes(|a|), U64Bytes(|b|), a + x, b + y);
    U64Injective(|a|, |b|);
    Cut(a, b, x, y);
  }

  lemma FieldsCut(a: Record, b: Record, x: Bytes, y: Bytes)
    requires RecordFits(a) && RecordFits(b) && Fields(a) + x == Fields(b) + y
    ensures a == b && x == y
  {
    hide Field;
    var a1, b1 := Field(a.operatorType), Field(b.operatorType);
    var a2, b2 := Field(a.domain) + a1, Field(b.domain) + b1;
    var a3, b3 := Field(a.node) + a2, Field(b.node) + b2;
    assert Fields(a) + x == Field(a.provider) + (a3 + x) && Fields(b) + y == Field(b.provider) + (b3 + y);
    FieldCut(a.provider, b.provider, a3 + x, b3 + y);
    assert a3 + x == Field(a.node) + (a2 + x) && b3 + y == Field(b.node) + (b2 + y);
    FieldCut(a.node, b.node, a2 + x, b2 + y);
    assert a2 + x == Field(a.domain) + (a1 + x) && b2 + y == Field(b.domain) + (b1 + y);
    FieldCut(a.domain, b.domain, a1 + x, b1 + y);
    FieldCut(a.operatorType, b.operatorType, x, y);
  }

  /** Run-length groups can be expanded again. */
  lemma {:induction false} GroupsInjective(a: seq<Record>, b: seq<Record>)
    requires Fits(a) && Fits(b) && Groups(a) == Groups(b)
    ensures a == b
    decreases |a|
  {
    hide U64Bytes, Fields, Groups, RunLength, RecordFits;
    NonemptyGroups(a);
    NonemptyGroups(b);
    if a != [] && b != [] {
      var k, l := RunLength(a), RunLength(b);
      GroupsStep(a);
      GroupsStep(b);
      Cut(U64Bytes(k), U64Bytes(l), Fields(a[0]) + Groups(a[k..]), Fields(b[0]) + Groups(b[l..]));
      U64Injective(k, l);
      FieldsCut(a[0], b[0], Groups(a[k..]), Groups(b[k..]));
      GroupsInjective(a[k..], b[k..]);
      SameRuns(a, b, k);
    }
  }

  lemma NonemptyGroups(records: seq<Record>)
    ensures Groups(records) == [] <==> records == []
  {
  }

  lemma SameRuns(a: seq<Record>, b: seq<Record>, k: nat)
    requires 1 <= k <= |a| && k <= |b| && a[0] == b[0] && a[k..] == b[k..]
    requires forall i :: 0 <= i < k ==> a[i] == a[0]
    requires forall i :: 0 <= i < k ==> b[i] == b[0]
    ensures a == b
  {
    assert a[..k] == b[..k];
    assert a == a[..k] + a[k..] && b == b[..k] + b[k..];
  }

  /** Two assignments have the same fingerprint input exactly when they are the same multiset of records. */
  lemma FingerprintIsCanonical(a: seq<Record>, b: seq<Record>, sortedA: seq<Record>, sortedB: seq<Record>)
    requires Fits(a) && Fits(b)
    requires Sorted(sortedA) && multiset(sortedA) == multiset(a)
    requires Sorted(sortedB) && multiset(sortedB) == multiset(b)
    ensures Encoding(sortedA) == Encoding(sortedB) <==> multiset(a) == multiset(b)
  {
    hide Field, Groups, U64Bytes, RecordLe;
    FitsIsOfTheMultiset(a, sortedA);
    FitsIsOfTheMultiset(b, sortedB);
    if multiset(a) == multiset(b) {
      SortedUnique(sortedA, sortedB);
    } else if Encoding(sortedA) == Encoding(sortedB) {
      var x, y := U64Bytes(|sortedA|) + Groups(sortedA), U64Bytes(|sortedB|) + Groups(sortedB);
      Cut(Field(DOMAIN), Field(DOMAIN), x, y);
      Cut(U64Bytes(|sortedA|), U64Bytes(|sortedB|), Groups(sortedA), Groups(sortedB));
      GroupsInjective(sortedA, sortedB);
      assert false;
    }
  }

  lemma FitsIsOfTheMultiset(a: seq<Record>, b: seq<Record>)
    requires Fits(a) && multiset(a) == multiset(b)
    ensures Fits(b)
  {
    hide RecordFits;
    assert |b| == |multiset(b)| == |multiset(a)| == |a|;
    forall i | 0 <= i < |b| ensures RecordFits(b[i]) {
      assert b[i] in multiset(b);
      assert b[i] in multiset(a);
      assert b[i] in a;
    }
  }

  // ---- The operations ---------------------------------------------------------------

  datatype AssignmentError = NoRecords | UnsupportedProvider(record: Record) | NoCuda | TooLong

  /** What the observed assignment proves: the counts per provider and the bytes that are hashed. */
  datatype Evidence = Evidence(hashed: Bytes, cpu: nat, cuda: nat)

  const CPU: Bytes := Ascii("CPUExecutionProvider")
  const CUDA: Bytes := Ascii("CUDAExecutionProvider")

  predicate Supported(r: Record) { r.provider == CPU || r.provider == CUDA }

  function CountOf(records: seq<Record>, provider: Bytes): nat {
    if records == [] then 0
    else CountOf(records[..|records| - 1], provider) + if records[|records| - 1].provider == provider then 1 else 0
  }

  /** The standard library's sort, as an insertion sort. */
  method SortRecords(records: seq<Record>) returns (sorted: seq<Record>)
    ensures Sorted(sorted) && multiset(sorted) == multiset(records)
  {
    hide RecordLe;
    sorted := [];
    for i := 0 to |records|
      invariant Sorted(sorted) && multiset(sorted) == multiset(records[..i])
    {
      assert records[..i + 1] == records[..i] + [records[i]];
      sorted := Insert(sorted, records[i]);
    }
    assert records[..|records|] == records;
  }

  method Insert(sorted: seq<Record>, x: Record) returns (r: seq<Record>)
    requires Sorted(sorted)
    ensures Sorted(r) && multiset(r) == multiset(sorted) + multiset{x}
  {
    hide RecordLe;
    var i := 0;
    while i < |sorted| && RecordLe(sorted[i], x)
      invariant 0 <= i <= |sorted|
      invariant forall k :: 0 <= k < i ==> RecordLe(sorted[k], x)
    {
      i := i + 1;
    }
    r := sorted[..i] + [x] + sorted[i..];
    InsertedSorted(sorted, x, i);
    assert sorted == sorted[..i] + sorted[i..];
  }

  lemma InsertedSorted(sorted: seq<Record>, x: Record, i: nat)
    requires Sorted(sorted) && i <= |sorted|
    requires forall k :: 0 <= k < i ==> RecordLe(sorted[k], x)
    requires i < |sorted| ==> !RecordLe(sorted[i], x)
    ensures Sorted(sorted[..i] + [x] + sorted[i..])
  {
    hide RecordLe;
    forall k | i <= k < |sorted| ensures RecordLe(x, sorted[k]) {
      RecordLeIsTotalOrder(x, sorted[i], sorted[k]);
    }
  }

  /** Appends to what has been hashed so far. */
  function WriteBytes(hasher: Result<Bytes, AssignmentError>, bytes: Bytes): Result<Bytes, AssignmentError> {
    if hasher.Err? || !FitsU64(|bytes|) then Err(TooLong) else Ok(hasher.value + Field(bytes))
  }

  lemma FourFields(h: Bytes, r: Record)
    ensures WriteBytes(WriteBytes(WriteBytes(WriteBytes(Ok(h), r.provider), r.node), r.domain), r.operatorType)
      == if RecordFits(r) then Ok(h + Fields(r)) else Err(TooLong)
  {
    hide Field;
    assert h + Field(r.provider) + Field(r.node) + Field(r.domain) + Field(r.operatorType) == h + Fields(r);
  }

  /** Every byte fed to the hash; it fails only on lengths beyond 64 bits. */
  method Fingerprint(records: seq<Record>) returns (r: Result<Bytes, AssignmentError>)
    ensures r == if Fits(records) then Ok(Encoding(records)) else Err(TooLong)
  {
    hide U64Bytes, Field, RunLength, Groups, Fields, Encoding, WriteBytes, RecordFits;
    if !FitsU64(|records|) {
      return Err(TooLong);
    }
    var header := WriteBytes(Ok([]), DOMAIN);
    Header();
    ghost var start := Field(DOMAIN) + U64Bytes(|records|);
    r := Ok(header.value + U64Bytes(|records|));
    assert records[0..] == records;
    var position := 0;
    while position < |records|
      invariant 0 <= position <= |records|
      invariant r.Err? ==> r.error.TooLong? && !Fits(records)
      invariant r.Ok? ==> (forall i :: 0 <= i < position ==> RecordFits(records[i]))
      invariant r.Ok? ==> r.value + Groups(records[position..]) == start + Groups(records)
    {
      var record, end := records[position], position + 1;
      while end < |records| && records[end] == record
        invariant position < end <= |records|
        invariant forall i :: position <= i < end ==> records[i] == record
        invariant forall i :: position <= i < end ==> RecordFits(records[i]) == RecordFits(record)
      {
        end := end + 1;
      }
      var run := records[position..];
      RunIs(run, end - position);
      GroupsStep(run);
      if r.Ok? {
        var h := r.value + U64Bytes(end - position);
        r := WriteBytes(WriteBytes(WriteBytes(WriteBytes(Ok(h), record.provider), record.node), record.domain),
                        record.operatorType);
        FourFields(h, record);
        assert run[end - position..] == records[end..];
      }
      position := end;
    }
    NoMoreGroups(records);
    assert r.Ok? ==> r.value == r.value + [];
  }

  lemma Header()
    ensures WriteBytes(Ok([]), DOMAIN) == Ok(Field(DOMAIN))
  {
    hide Field;
    assert [] + Field(DOMAIN) == Field(DOMAIN);
  }

  lemma NoMoreGroups(records: seq<Record>)
    ensures Groups(records[|records|..]) == []
    ensures Encoding(records) == Field(DOMAIN) + U64Bytes(|records|) + Groups(records)
  {
    hide Field, U64Bytes, Groups, Ascii;
    assert records[|records|..] == [];
    NonemptyGroups([]);
    Associates(Field(DOMAIN), U64Bytes(|records|), Groups(records));
  }

  lemma Associates(a: Bytes, b: Bytes, c: Bytes)
    ensures a + (b + c) == a + b + c
  {
  }

  lemma GroupsStep(records: seq<Record>)
    requires records != []
    ensures Groups(records)
      == U64Bytes(RunLength(records)) + (Fields(records[0]) + Groups(records[RunLength(records)..]))
  {
  }

  /** The run is what the inner loop stops at. */
  lemma RunIs(records: seq<Record>, k: nat)
    requires 1 <= k <= |records|
    requires forall i :: 0 <= i < k ==> records[i] == records[0]
    requires k < |records| ==> records[k] != records[0]
    ensures RunLength(records) == k
  {
  }

  /** Refuses an empty assignment, any provider but the CPU and CUDA ones, and one without CUDA nodes; otherwise
      the counts are those of the records and the bytes are the encoding of their sorted arrangement. */
  method EvidenceFromRecords(records: seq<Record>)
    returns (r: Result<Evidence, AssignmentError>, ghost sorted: seq<Record>)
    ensures r.Ok? ==> Sorted(sorted) && multiset(sorted) == multiset(records)
    ensures records == [] ==> r == Err(NoRecords)
    ensures r.Err? && r.error.UnsupportedProvider? <==> exists i :: 0 <= i < |records| && !Supported(records[i])
    ensures r.Err? && r.error.UnsupportedProvider? ==>
      exists i :: 0 <= i < |records| && r.error.record == records[i] && !Supported(records[i]) &&
                  forall k :: 0 <= k < i ==> Supported(records[k])
    ensures records != [] && (forall i :: 0 <= i < |records| ==> Supported(records[i])) ==>
      r == if CountOf(records, CUDA) == 0 then Err(NoCuda)
           else if !Fits(records) then Err(TooLong)
           else Ok(Evidence(Encoding(sorted), CountOf(records, CPU), CountOf(records, CUDA)))
    ensures r.Ok? ==> r.value.cpu + r.value.cuda == |records| && r.value.cuda > 0
  {
    hide RecordLe, Fits, Encoding;
    sorted := [];
    if records == [] {
      return Err(NoRecords), sorted;
    }
    var cpu, cuda := 0, 0;
    ProvidersDiffer();
    for i := 0 to |records|
      invariant forall k :: 0 <= k < i ==> Supported(records[k])
      invariant cpu == CountOf(records[..i], CPU) && cuda == CountOf(records[..i], CUDA) && cpu + cuda == i
    {
      assert records[..i + 1][..i] == records[..i];
      if records[i].provider == CPU {
        cpu := cpu + 1;
      } else if records[i].provider == CUDA {
        cuda := cuda + 1;
      } else {
        return Err(UnsupportedProvider(records[i])), sorted;
      }
    }
    assert records[..|records|] == records;
    if cuda == 0 {
      return Err(NoCuda), sorted;
    }
    var arranged := SortRecords(records);
    sorted := arranged;
    var fingerprint := Fingerprint(arranged);
    if Fits(records) { FitsIsOfTheMultiset(records, sorted); }
    if Fits(sorted) { FitsIsOfTheMultiset(sorted, records); }
    r := if fingerprint.Ok? then Ok(Evidence(fingerprint.value, cpu, cuda)) else Err(fingerprint.error);
  }

  lemma ProvidersDiffer()
    ensures CPU != CUDA
  {
    assert |CPU| == 20 && |CUDA| == 21;
  }
}
