/** The compact report codecs down to bytes: delta series of 64-bit integers, sparse wallet changes,
    and columnar action tables.  A deflate stream is its content and its level, and JSON
    is taken as an inverse pair. */
module ReportCodec {
  import opened Wrappers

  type Byte = b: int | 0 <= b < 256

  /** Stored bytes: a zlib stream, known by what it inflates to and its level, or bytes zlib cannot inflate. */
  datatype Blob = Deflated(raw: seq<Byte>, level: nat) | Corrupt

  /** The stream the encoders write, `zlib.compress(..., level=9)`. */
  const BEST_LEVEL: nat := 9

  datatype Error = EmptySeries | OutOfRange | ZlibError | SizeMismatch

  // ----- Little-endian integers

  const TWO_63: int := 0x8000_0000_0000_0000
  const TWO_64: int := 0x1_0000_0000_0000_0000
  const TWO_32: int := 0x1_0000_0000

  function Pow256(n: nat): (p: int)
    ensures p > 0
  {
    if n == 0 then 1 else 256 * Pow256(n - 1)
  }

  function LittleEndian(n: nat, width: nat): (bytes: seq<Byte>)
    ensures |bytes| == width
  {
    if width == 0 then [] else [n % 256] + LittleEndian(n / 256, width - 1)
  }

  function Unsigned(bytes: seq<Byte>): nat {
    if bytes == [] then 0 else bytes[0] + 256 * Unsigned(bytes[1..])
  }

  lemma {:induction false} UnsignedInverts(n: nat, width: nat)
    requires n < Pow256(width)
    ensures Unsigned(LittleEndian(n, width)) == n
  {
    if width > 0 {
      UnsignedInverts(n / 256, width - 1);
      assert LittleEndian(n, width)[1..] == LittleEndian(n / 256, width - 1);
    }
  }

  lemma {:induction false} UnsignedBounds(bytes: seq<Byte>)
    ensures Unsigned(bytes) < Pow256(|bytes|)
    ensures LittleEndian(Unsigned(bytes), |bytes|) == bytes
  {
    if bytes != [] {
      UnsignedBounds(bytes[1..]);
      var rest := Unsigned(bytes[1..]);
      DivModDigit(bytes[0], rest);
      assert bytes == [bytes[0]] + bytes[1..];
    }
  }

  lemma DivModDigit(digit: Byte, rest: nat)
    ensures (digit + 256 * rest) % 256 == digit && (digit + 256 * rest) / 256 == rest
  {
  }

  lemma Widths()
    ensures Pow256(4) == TWO_32 && Pow256(8) == TWO_64
  {
    assert Pow256(2) == 65536 && Pow256(3) == 16777216;
    assert Pow256(5) == 256 * Pow256(4) && Pow256(6) == 256 * Pow256(5) && Pow256(7) == 256 * Pow256(6);
  }

  predicate FitsInt64(v: int) {
    -TWO_63 <= v < TWO_63
  }

  /** `struct.pack("<q", v)`: two's complement. */
  function PackInt64(v: int): (bytes: seq<Byte>)
    requires FitsInt64(v)
    ensures |bytes| == 8
  {
    LittleEndian(if v < 0 then v + TWO_64 else v, 8)
  }

  function UnpackInt64(bytes: seq<Byte>): int {
    var u := Unsigned(bytes);
    if u >= TWO_63 then u - TWO_64 else u
  }

  lemma Int64RoundTrip(v: int)
    requires FitsInt64(v)
    ensures UnpackInt64(PackInt64(v)) == v
  {
    Widths();
    UnsignedInverts(if v < 0 then v + TWO_64 else v, 8);
  }

  lemma BytesRoundTrip(bytes: seq<Byte>)
    requires |bytes| == 8
    ensures FitsInt64(UnpackInt64(bytes)) && PackInt64(UnpackInt64(bytes)) == bytes
  {
    Widths();
    UnsignedBounds(bytes);
  }

  // ----- Delta series

  /** First value, then the differences. */
  function Deltas(values: seq<int>): (deltas: seq<int>)
    ensures |deltas| == |values|
  {
    seq(|values|, k requires 0 <= k < |values| => if k == 0 then values[0] else values[k] - values[k - 1])
  }

  predicate AllFit(values: seq<int>) {
    forall k :: 0 <= k < |values| ==> FitsInt64(values[k])
  }

  function PackAll(values: seq<int>): (raw: seq<Byte>)
    requires AllFit(values)
    ensures |raw| == 8 * |values|
  {
    if values == [] then [] else PackAll(values[..|values| - 1]) + PackInt64(values[|values| - 1])
  }

  function UnpackAll(raw: seq<Byte>, count: nat): (values: seq<int>)
    requires |raw| == 8 * count
    ensures |values| == count
  {
    if count == 0 then []
    else UnpackAll(raw[..8 * (count - 1)], count - 1) + [UnpackInt64(raw[8 * (count - 1)..])]
  }

  lemma {:induction false} UnpackInvertsPack(values: seq<int>)
    requires AllFit(values)
    ensures UnpackAll(PackAll(values), |values|) == values
  {
    if values != [] {
      var most, last := values[..|values| - 1], values[|values| - 1];
      UnpackInvertsPack(most);
      Int64RoundTrip(last);
      hide PackInt64, UnpackInt64, FitsInt64;
      assert PackAll(values)[..8 * |most|] == PackAll(most) && PackAll(values)[8 * |most|..] == PackInt64(last);
    }
  }

  lemma {:induction false} PackInvertsUnpack(raw: seq<Byte>, count: nat)
    requires |raw| == 8 * count
    ensures AllFit(UnpackAll(raw, count)) && PackAll(UnpackAll(raw, count)) == raw
  {
    if count > 0 {
      var most, last := raw[..8 * (count - 1)], raw[8 * (count - 1)..];
      PackInvertsUnpack(most, count - 1);
      BytesRoundTrip(last);
      hide PackInt64, UnpackInt64, FitsInt64;
      var values := UnpackAll(raw, count);
      assert values[..|values| - 1] == UnpackAll(most, count - 1);
      assert raw == most + last;
    }
  }

  /** `_encode_deltas`. */
  function EncodeDeltas(values: seq<int>): Result<Blob, Error> {
    if values == [] then Err(EmptySeries)
    else if !AllFit(Deltas(values)) then Err(OutOfRange)
    else Ok(Deflated(PackAll(Deltas(values)), BEST_LEVEL))
  }

  /** Running sums. */
  function Summed(deltas: seq<int>): (values: seq<int>)
    ensures |values| == |deltas|
  {
    if deltas == [] then []
    else
      var rest, last := Summed(deltas[..|deltas| - 1]), deltas[|deltas| - 1];
      rest + [if rest == [] then last else rest[|rest| - 1] + last]
  }

  lemma {:induction false} SummedInvertsDeltas(values: seq<int>)
    ensures Summed(Deltas(values)) == values
  {
    if values != [] {
      var most := values[..|values| - 1];
      SummedInvertsDeltas(most);
      assert Deltas(values)[..|most|] == Deltas(most);
    }
  }

  lemma {:induction false} DeltasInvertsSummed(deltas: seq<int>)
    ensures Deltas(Summed(deltas)) == deltas
  {
    if deltas != [] {
      var most := deltas[..|deltas| - 1];
      DeltasInvertsSummed(most);
      var values := Summed(deltas);
      assert values[..|most|] == Summed(most);
      assert forall k :: 0 <= k < |most| ==> Deltas(values)[k] == Deltas(Summed(most))[k];
    }
  }

  /** `_decode_deltas`: inflate, check the size, and sum up as the differences are read. */
  method DecodeDeltas(blob: Blob, expectedCount: int) returns (result: Result<seq<int>, Error>)
    ensures result == Decoded(blob, expectedCount)
  {
    if blob.Corrupt? {
      return Err(ZlibError);
    }
    if |blob.raw| != expectedCount * 8 {
      return Err(SizeMismatch);
    }
    var deltas := UnpackAll(blob.raw, expectedCount);
    var values: seq<int> := [];
    for k := 0 to |deltas|
      invariant values == Summed(deltas[..k])
    {
      assert deltas[..k + 1][..k] == deltas[..k];
      values := values + [if k == 0 then deltas[k] else values[|values| - 1] + deltas[k]];
    }
    assert deltas[..|deltas|] == deltas;
    return Ok(values);
  }

  /** The series a blob stands for at a declared sample count. */
  function Decoded(blob: Blob, expectedCount: int): Result<seq<int>, Error> {
    if blob.Corrupt? then Err(ZlibError)
    else if |blob.raw| != expectedCount * 8 then Err(SizeMismatch)
    else Ok(Summed(UnpackAll(blob.raw, expectedCount)))
  }

  /** Decoding inverts encoding, at the declared count only; and encoding works exactly for the
      non-empty series whose first value and differences fit 64 bits. */
  lemma DecodeInvertsEncode(values: seq<int>, count: int)
    ensures EncodeDeltas(values).Ok? <==>
      values != [] && FitsInt64(values[0]) && forall k :: 0 < k < |values| ==> FitsInt64(values[k] - values[k - 1])
    ensures EncodeDeltas(values).Ok? ==>
      Decoded(EncodeDeltas(values).value, count) == if count == |values| then Ok(values) else Err(SizeMismatch)
  {
    var deltas := Deltas(values);
    if values != [] {
      assert deltas[0] == values[0] && forall k :: 0 < k < |values| ==> deltas[k] == values[k] - values[k - 1];
      if AllFit(deltas) {
        assert forall k :: 0 < k < |values| ==> FitsInt64(deltas[k]);
        UnpackInvertsPack(deltas);
        SummedInvertsDeltas(values);
      }
    }
  }

  /** Encoding inverts decoding up to the compression: a blob that decodes to something non-empty inflates to
      the bytes its encoding inflates to. */
  lemma EncodeInvertsDecode(blob: Blob, count: int)
    requires Decoded(blob, count).Ok? && count != 0
    ensures EncodeDeltas(Decoded(blob, count).value) == Ok(Deflated(blob.raw, BEST_LEVEL))
  {
    var deltas := UnpackAll(blob.raw, count);
    PackInvertsUnpack(blob.raw, count);
    DeltasInvertsSummed(deltas);
  }

  // ----- Wallet changes

  datatype Change = Change(index: int, value: int)

  /** The samples below `n` that differ from their predecessor, the first one always. */
  function Changes(values: seq<int>, n: nat): seq<Change>
    requires n <= |values|
  {
    if n == 0 then []
    else if n == 1 || values[n - 1] != values[n - 2] then Changes(values, n - 1) + [Change(n - 1, values[n - 1])]
    else Changes(values, n - 1)
  }

  /** Indices ascend strictly from 0 and neighbouring values differ. */
  ghost predicate Sparse(changes: seq<Change>, n: nat) {
    && (changes == [] <==> n == 0)
    && (changes != [] ==> changes[0].index == 0 && changes[|changes| - 1].index < n)
    && (forall k :: 0 < k < |changes| ==>
      changes[k - 1].index < changes[k].index && changes[k - 1].value != changes[k].value)
  }

  /** The value that holds at position `p`: the last change at or before it. */
  function At(changes: seq<Change>, p: int): int {
    if changes == [] then 0
    else if changes[|changes| - 1].index <= p then changes[|changes| - 1].value
    else At(changes[..|changes| - 1], p)
  }

  /** The dense series again. */
  function Expand(changes: seq<Change>, n: nat): (values: seq<int>)
    ensures |values| == n
  {
    seq(n, p requires 0 <= p < n => At(changes, p))
  }

  lemma {:induction false} ChangesAreSparse(values: seq<int>, n: nat)
    requires n <= |values|
    ensures Sparse(Changes(values, n), n)
    ensures n > 0 ==> Changes(values, n)[|Changes(values, n)| - 1].value == values[n - 1]
  {
    if n > 0 {
      ChangesAreSparse(values, n - 1);
    }
  }

  lemma {:induction false} ChangesHold(values: seq<int>, n: nat, p: nat)
    requires p < n <= |values|
    ensures At(Changes(values, n), p) == values[p]
  {
    ChangesAreSparse(values, n);
    ChangesAreSparse(values, n - 1);
    if p < n - 1 {
      ChangesHold(values, n - 1, p);
      var earlier, changes := Changes(values, n - 1), Changes(values, n);
      assert changes != earlier ==> changes[..|changes| - 1] == earlier;
    }
  }

  lemma {:induction false} IndicesGrow(changes: seq<Change>, n: nat, k: nat)
    requires Sparse(changes, n) && k < |changes|
    ensures changes[k].index >= k
  {
    if k > 0 {
      IndicesGrow(changes, n, k - 1);
    }
  }

  /** Before its last change a sparse list looks like the list without it, and the value differs. */
  lemma ReachOfLast(changes: seq<Change>, n: nat, last: Change)
    requires Sparse(changes, n) && n > 0 && last == changes[|changes| - 1]
    ensures last.index >= 0 && Sparse(changes[..|changes| - 1], last.index)
    ensures last.index > 0 ==> At(changes, last.index - 1) != last.value
    ensures forall p :: p < last.index ==> At(changes, p) == At(changes[..|changes| - 1], p)
  {
    IndicesGrow(changes, n, |changes| - 1);
  }

  /** Two sparse lists that expand to the same series are the same list. */
  lemma {:induction false} SparseIsUnique(c: seq<Change>, d: seq<Change>, n: nat)
    requires Sparse(c, n) && Sparse(d, n) && forall p :: 0 <= p < n ==> At(c, p) == At(d, p)
    ensures c == d
    decreases |c|
  {
    if n > 0 {
      var i, j := c[|c| - 1].index, d[|d| - 1].index;
      ReachOfLast(c, n, c[|c| - 1]);
      ReachOfLast(d, n, d[|d| - 1]);
      assert i > 0 ==> At(c, i - 1) != At(c, i);
      assert j > 0 ==> At(d, j - 1) != At(d, j);
      assert i == j && At(c, i) == c[|c| - 1].value && At(d, i) == d[|d| - 1].value;
      var earlierC, earlierD := c[..|c| - 1], d[..|d| - 1];
      forall p | 0 <= p < i ensures At(earlierC, p) == At(earlierD, p) {
        assert At(c, p) == At(d, p);
      }
      SparseIsUnique(earlierC, earlierD, i);
      assert c == earlierC + [c[|c| - 1]] && d == earlierD + [d[|d| - 1]];
    }
  }

  /** The sparse form is exact both ways: a series comes back from its changes, and every sparse list
      is the list of changes of what it expands to. */
  lemma ChangesAreCanonical(values: seq<int>, changes: seq<Change>, n: nat)
    ensures Sparse(Changes(values, |values|), |values|) && Expand(Changes(values, |values|), |values|) == values
    ensures Sparse(changes, n) ==> Changes(Expand(changes, n), n) == changes
  {
    ChangesAreSparse(values, |values|);
    forall p | 0 <= p < |values| ensures At(Changes(values, |values|), p) == values[p] {
      ChangesHold(values, |values|, p);
    }
    if Sparse(changes, n) {
      var dense := Expand(changes, n);
      ChangesAreSparse(dense, n);
      forall p | 0 <= p < n ensures At(Changes(dense, n), p) == At(changes, p) {
        ChangesHold(dense, n, p);
      }
      SparseIsUnique(Changes(dense, n), changes, n);
    }
  }

  predicate FitsRecord(c: Change) {
    0 <= c.index < TWO_32 && FitsInt64(c.value)
  }

  predicate AllFitRecords(changes: seq<Change>) {
    forall k :: 0 <= k < |changes| ==> FitsRecord(changes[k])
  }

  /** `struct.Struct("<Iq").pack`. */
  function PackRecord(c: Change): (bytes: seq<Byte>)
    requires FitsRecord(c)
    ensures |bytes| == 12
  {
    LittleEndian(c.index, 4) + PackInt64(c.value)
  }

  function UnpackRecord(bytes: seq<Byte>): Change
    requires |bytes| == 12
  {
    Change(Unsigned(bytes[..4]), UnpackInt64(bytes[4..]))
  }

  function PackRecords(changes: seq<Change>): (raw: seq<Byte>)
    requires AllFitRecords(changes)
    ensures |raw| == 12 * |changes|
  {
    if changes == [] then [] else PackRecords(changes[..|changes| - 1]) + PackRecord(changes[|changes| - 1])
  }

  function UnpackRecords(raw: seq<Byte>, count: nat): (changes: seq<Change>)
    requires |raw| == 12 * count
    ensures |changes| == count
  {
    if count == 0 then []
    else UnpackRecords(raw[..12 * (count - 1)], count - 1) + [UnpackRecord(raw[12 * (count - 1)..])]
  }

  lemma RecordRoundTrip(c: Change)
    requires FitsRecord(c)
    ensures UnpackRecord(PackRecord(c)) == c
  {
    Widths();
    UnsignedInverts(c.index, 4);
    Int64RoundTrip(c.value);
    assert PackRecord(c)[..4] == LittleEndian(c.index, 4) && PackRecord(c)[4..] == PackInt64(c.value);
  }

  lemma {:induction false} RecordsRoundTrip(changes: seq<Change>)
    requires AllFitRecords(changes)
    ensures UnpackRecords(PackRecords(changes), |changes|) == changes
  {
    if changes != [] {
      var most, last := changes[..|changes| - 1], changes[|changes| - 1];
      RecordsRoundTrip(most);
      RecordRoundTrip(last);
      hide PackRecord, UnpackRecord, FitsRecord;
      assert PackRecords(changes)[..12 * |most|] == PackRecords(most);
      assert PackRecords(changes)[12 * |most|..] == PackRecord(last);
    }
  }

  /** `_encode_wallet_changes`: the blob and the declared number of changes. */
  function EncodeWallet(values: seq<int>): Result<(Blob, nat), Error> {
    var changes := Changes(values, |values|);
    if !AllFitRecords(changes) then Err(OutOfRange) else Ok((Deflated(PackRecords(changes), BEST_LEVEL), |changes|))
  }

  /** `_decode_wallet_changes`. */
  function DecodeWallet(blob: Blob, expectedCount: int): Result<seq<Change>, Error> {
    if blob.Corrupt? then Err(ZlibError)
    else if |blob.raw| != expectedCount * 12 then Err(SizeMismatch)
    else Ok(UnpackRecords(blob.raw, expectedCount))
  }

  /** A wallet series survives storage: what is decoded is sparse and expands to the series again. */
  lemma WalletRoundTrip(values: seq<int>, count: int)
    requires EncodeWallet(values).Ok?
    ensures var (blob, stored) := EncodeWallet(values).value;
      if count != stored then DecodeWallet(blob, count) == Err(SizeMismatch)
      else DecodeWallet(blob, count).Ok? && Sparse(DecodeWallet(blob, count).value, |values|) &&
           Expand(DecodeWallet(blob, count).value, |values|) == values
  {
    ChangesAreCanonical(values, [], 0);
    RecordsRoundTrip(Changes(values, |values|));
  }

  lemma {:induction false} ChangesAreSamples(values: seq<int>, n: nat)
    requires n <= |values|
    ensures forall k :: 0 <= k < |Changes(values, n)| ==>
      0 <= Changes(values, n)[k].index < n && Changes(values, n)[k].value == values[Changes(values, n)[k].index]
  {
    if n > 0 {
      ChangesAreSamples(values, n - 1);
    }
  }

  lemma {:induction false} EveryValueIsAChange(values: seq<int>, n: nat, p: nat)
    requires p < n <= |values|
    ensures exists k :: 0 <= k < |Changes(values, n)| && Changes(values, n)[k].value == values[p]
    decreases n
  {
    var changes := Changes(values, n);
    if p < n - 1 {
      EveryValueIsAChange(values, n - 1, p);
      var k :| 0 <= k < |Changes(values, n - 1)| && Changes(values, n - 1)[k].value == values[p];
      assert changes[k].value == values[p];
    } else {
      ChangesAreSparse(values, n);
      assert changes[|changes| - 1].value == values[p];
    }
  }

  /** Up to 2^32 samples, encoding fails exactly when some value does not fit 64 bits. */
  lemma WalletEncodes(values: seq<int>)
    requires |values| <= TWO_32
    ensures EncodeWallet(values).Ok? <==> AllFit(values)
  {
    var changes := Changes(values, |values|);
    ChangesAreSamples(values, |values|);
    if AllFitRecords(changes) {
      forall p | 0 <= p < |values| ensures FitsInt64(values[p]) {
        EveryValueIsAChange(values, |values|, p);
        var k :| 0 <= k < |changes| && changes[k].value == values[p];
        assert FitsRecord(changes[k]);
      }
    }
  }

  // ----- Action tables

  /** A row is a dictionary in insertion order: cells with distinct headers. */
  datatype Cell<H, V> = Cell(header: H, value: V)

  ghost predicate IsDict<H, V>(row: seq<Cell<H, V>>) {
    forall a, b :: 0 <= a < b < |row| ==> row[a].header != row[b].header
  }

  function Headers<H, V>(row: seq<Cell<H, V>>): (headers: seq<H>)
    ensures |headers| == |row|
  {
    seq(|row|, k requires 0 <= k < |row| => row[k].header)
  }

  function Cells<H, V>(row: seq<Cell<H, V>>): (cells: seq<V>)
    ensures |cells| == |row|
  {
    seq(|row|, k requires 0 <= k < |row| => row[k].value)
  }

  datatype Payload<H, V> = Payload(headers: seq<H>, rows: seq<seq<V>>)

  datatype ActionError = UnstableHeaders | CountMismatch

  /** `_encode_actions` up to JSON and deflate. */
  function EncodeActions<H(==), V>(actions: seq<seq<Cell<H, V>>>): Result<Payload<H, V>, ActionError> {
    if actions == [] then Ok(Payload([], []))
    else if exists k :: 0 <= k < |actions| && Headers(actions[k]) != Headers(actions[0]) then Err(UnstableHeaders)
    else Ok(Payload(Headers(actions[0]), seq(|actions|, k requires 0 <= k < |actions| => Cells(actions[k]))))
  }

  /** `d[h] = v` on an insertion-ordered dictionary. */
  function Put<H(==), V>(row: seq<Cell<H, V>>, h: H, v: V): seq<Cell<H, V>> {
    if row == [] then [Cell(h, v)]
    else if row[0].header == h then [Cell(h, v)] + row[1..]
    else [row[0]] + Put(row[1..], h, v)
  }

  /** `dict(zip(headers, cells))`. */
  function Zip<H(==), V>(headers: seq<H>, cells: seq<V>): seq<Cell<H, V>>
    requires |headers| == |cells|
  {
    if headers == [] then []
    else Put(Zip(headers[..|headers| - 1], cells[..|cells| - 1]), headers[|headers| - 1], cells[|cells| - 1])
  }

  /** `_decode_actions` after inflate and JSON. */
  function DecodeActions<H(==), V>(payload: Payload<H, V>, expectedCount: int): Result<seq<seq<Cell<H, V>>>,
                           ActionError> {
    if |payload.rows| != expectedCount || exists k ::
      0 <= k < |payload.rows| && |payload.rows[k]| != |payload.headers| then
      Err(CountMismatch)
    else
      Ok(seq(|payload.rows|, k requires 0 <= k < |payload.rows| => Zip(payload.headers, payload.rows[k])))
  }

  lemma {:induction false} PutNewAppends<H, V>(row: seq<Cell<H, V>>, h: H, v: V)
    requires forall k :: 0 <= k < |row| ==> row[k].header != h
    ensures Put(row, h, v) == row + [Cell(h, v)]
  {
    if row != [] {
      PutNewAppends(row[1..], h, v);
      assert row == [row[0]] + row[1..];
    }
  }

  lemma {:induction false} ZipRestores<H, V>(row: seq<Cell<H, V>>)
    requires IsDict(row)
    ensures Zip(Headers(row), Cells(row)) == row
  {
    if row != [] {
      var most, last := row[..|row| - 1], row[|row| - 1];
      ZipRestores(most);
      assert Headers(row)[..|most|] == Headers(most) && Cells(row)[..|most|] == Cells(most);
      PutNewAppends(most, last.header, last.value);
      assert row == most + [last];
    }
  }

  /** Action tables: encoding works exactly when every row has the first one's headers in the same
      order, and then the table comes back row by row at the declared count. */
  lemma ActionsRoundTrip<H, V>(actions: seq<seq<Cell<H, V>>>, count: int)
    requires forall k :: 0 <= k < |actions| ==> IsDict(actions[k])
    ensures EncodeActions(actions).Ok? <==> forall j, k :: 0 <= j < |actions| && 0 <= k < |actions| ==>
      Headers(actions[j]) == Headers(actions[k])
    ensures EncodeActions(actions).Ok? ==>
      DecodeActions(EncodeActions(actions).value, count) == if count == |actions| then Ok(actions)
        else Err(CountMismatch)
  {
    if EncodeActions(actions).Ok? {
      var payload := EncodeActions(actions).value;
      forall k | 0 <= k < |actions|
        ensures |payload.rows[k]| == |payload.headers| && Zip(payload.headers, payload.rows[k]) == actions[k]
      {
        assert Headers(actions[k]) == Headers(actions[0]);
        ZipRestores(actions[k]);
      }
      hide Zip, Headers, Cells, EncodeActions;
      var decoded := DecodeActions(payload, count);
      assert |payload.rows| == |actions|;
      if count == |actions| {
        assert decoded.Ok? && |decoded.value| == |actions|;
        assert forall k :: 0 <= k < |actions| ==> decoded.value[k] == actions[k];
        assert decoded.value == actions;
      }
    }
  }
}
