/** The stored bytes themselves: which byte stands where, whatever the decoders make of them. */
module CodecBytes {
  import opened ReportCodec
  import opened Wrappers

  /** Four bytes, the lowest first. */
  function Word(b: seq<Byte>): int
    requires |b| == 4
  {
    (b[0] as int) + 0x100 * (b[1] as int) + 0x1_0000 * (b[2] as int) + 0x100_0000 * (b[3] as int)
  }

  /** Eight bytes, the lowest first, in two's complement. */
  ghost predicate HoldsInt64(b: seq<Byte>, v: int) {
    |b| == 8 && Word(b[..4]) + 0x1_0000_0000 * Word(b[4..]) == if v < 0 then v + 0x1_0000_0000_0000_0000 else v
  }

  lemma UnsignedIsWord(b: seq<Byte>, rest: seq<Byte>)
    requires |b| == 4
    ensures Unsigned(b + rest) == Word(b) + 0x1_0000_0000 * Unsigned(rest)
  {
    var whole := b + rest;
    assert whole[1..] == b[1..] + rest && whole[2..] == b[2..] + rest && whole[3..] == b[3..] + rest;
    assert whole[1..][1..] == whole[2..] && whole[2..][1..] == whole[3..] && whole[3..][1..] == rest;
    assert Unsigned(whole) == b[0] + 256 * Unsigned(whole[1..]);
    assert Unsigned(whole[1..]) == b[1] + 256 * Unsigned(whole[2..]);
    assert Unsigned(whole[2..]) == b[2] + 256 * Unsigned(whole[3..]);
    assert Unsigned(whole[3..]) == b[3] + 256 * Unsigned(rest);
  }

  lemma UnsignedWord(b: seq<Byte>)
    requires |b| == 4
    ensures Unsigned(b) == Word(b)
  {
    UnsignedIsWord(b, []);
    assert b + [] == b && Unsigned([]) == 0;
  }

  /** A packed value lies in its eight bytes with the lowest first. */
  lemma PackedBytes(v: int)
    requires FitsInt64(v)
    ensures HoldsInt64(PackInt64(v), v)
  {
    var n, b := if v < 0 then v + TWO_64 else v, PackInt64(v);
    Widths();
    UnsignedInverts(n, 8);
    assert b == b[..4] + b[4..];
    UnsignedIsWord(b[..4], b[4..]);
    UnsignedWord(b[4..]);
    hide LittleEndian, Unsigned, Word;
  }

  /** An encoded series takes eight bytes a sample: the first value, then each difference to the sample before. */
  lemma SeriesBytes(values: seq<int>, k: nat)
    requires EncodeDeltas(values).Ok? && k < |values|
    ensures var blob := EncodeDeltas(values).value;
      && blob.Deflated? && blob.level == 9 && |blob.raw| == 8 * |values|
      && HoldsInt64(blob.raw[8 * k..8 * k + 8], if k == 0 then values[0] else values[k] - values[k - 1])
  {
    PackedAt(Deltas(values), k);
    PackedBytes(Deltas(values)[k]);
    hide PackInt64, HoldsInt64;
  }

  lemma {:induction false} PackedAt(values: seq<int>, k: nat)
    requires AllFit(values) && k < |values|
    ensures PackAll(values)[8 * k..8 * k + 8] == PackInt64(values[k])
  {
    hide FitsInt64;
    var n := |values| - 1;
    var raw, most := PackAll(values), PackAll(values[..n]);
    assert raw == most + PackInt64(values[n]);
    if k < n {
      PackedAt(values[..n], k);
      assert raw[8 * k..8 * k + 8] == most[8 * k..8 * k + 8];
    }
  }

  /** An encoded wallet takes twelve bytes a change: the index of the sample, then its value. */
  lemma WalletBytes(values: seq<int>, k: nat)
    requires EncodeWallet(values).Ok? && k < EncodeWallet(values).value.1
    ensures var (blob, stored) := EncodeWallet(values).value; var change := Changes(values, |values|)[k];
      && stored == |Changes(values, |values|)| && blob.Deflated? && blob.level == 9 && |blob.raw| == 12 * stored
      && Word(blob.raw[12 * k..12 * k + 4]) == change.index
      && HoldsInt64(blob.raw[12 * k + 4..12 * k + 12], change.value)
  {
    var changes := Changes(values, |values|);
    RecordAt(changes, k);
    RecordBytes(changes[k]);
    var raw := PackRecords(changes);
    assert raw[12 * k..12 * k + 12][..4] == raw[12 * k..12 * k + 4];
    assert raw[12 * k..12 * k + 12][4..] == raw[12 * k + 4..12 * k + 12];
    hide PackRecord, PackRecords, HoldsInt64, Word, Changes;
  }

  lemma RecordBytes(c: Change)
    requires FitsRecord(c)
    ensures Word(PackRecord(c)[..4]) == c.index && HoldsInt64(PackRecord(c)[4..], c.value)
  {
    Widths();
    UnsignedInverts(c.index, 4);
    UnsignedWord(LittleEndian(c.index, 4));
    PackedBytes(c.value);
    hide HoldsInt64, Word, LittleEndian;
    assert PackRecord(c)[..4] == LittleEndian(c.index, 4) && PackRecord(c)[4..] == PackInt64(c.value);
  }

  lemma {:induction false} RecordAt(changes: seq<Change>, k: nat)
    requires AllFitRecords(changes) && k < |changes|
    ensures PackRecords(changes)[12 * k..12 * k + 12] == PackRecord(changes[k])
  {
    hide FitsRecord, PackRecord;
    var n := |changes| - 1;
    var raw, most := PackRecords(changes), PackRecords(changes[..n]);
    assert raw == most + PackRecord(changes[n]);
    if k < n {
      RecordAt(changes[..n], k);
      assert raw[12 * k..12 * k + 12] == most[12 * k..12 * k + 12];
    }
  }

  /** The sample at a position is a stored change exactly when it is the first or differs from the one before. */
  lemma {:induction false} ChangesMean(values: seq<int>, n: nat, p: nat)
    requires n <= |values|
    ensures Change(p, if p < n then values[p] else 0) in Changes(values, n) <==>
      p < n && (p == 0 || values[p] != values[p - 1])
  {
    if n > 0 {
      ChangesMean(values, n - 1, p);
      ChangesAreSamples(values, n);
      ChangesAreSamples(values, n - 1);
    }
  }

  /** An encoded action table holds the headers of its first row, and its cells row by row. */
  lemma TableMeans<H, V>(actions: seq<seq<Cell<H, V>>>, k: nat, j: nat)
    requires EncodeActions(actions).Ok? && k < |actions| && j < |actions[0]|
    ensures var payload := EncodeActions(actions).value;
      && |payload.headers| == |actions[0]| && payload.headers[j] == actions[0][j].header
      && |payload.rows| == |actions| && |payload.rows[k]| == |actions[k]| == |actions[0]|
      && payload.rows[k][j] == actions[k][j].value && actions[k][j].header == actions[0][j].header
  {
    assert Headers(actions[k]) == Headers(actions[0]);
    assert Headers(actions[k])[j] == Headers(actions[0])[j];
  }
}
