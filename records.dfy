/**
 * The packed item records a container scan returns: 20 bytes per item
 * (baseID, count and equipped as little-endian 32-bit words, then an
 * 8-byte condition). The record count is the byte count divided by 20;
 * trailing bytes that do not fill a record are ignored.
 */
module ScanRecords {

  const RECORD_SIZE: nat := 20

  /** An unsigned char of the scan buffer. */
  newtype byte = x: int | 0 <= x < 0x100

  /** The integer part of a packed record; the floating-point condition is not modelled. */
  datatype Record = Record(baseID: int, count: int, equipped: int)

  predicate IsWord(x: int)
  {
    0 <= x < 0x1_0000_0000
  }

  predicate WordFields(r: Record)
  {
    IsWord(r.baseID) && IsWord(r.count) && IsWord(r.equipped)
  }

  /** The little-endian unsigned 32-bit word at `off`. */
  function Word(data: seq<byte>, off: nat): (w: int)
    requires off + 4 <= |data|
    ensures IsWord(w)
  {
    data[off] as int + 0x100 * data[off + 1] as int + 0x1_0000 * data[off + 2] as int + 0x100_0000 * data[off + 3] as int
  }

  /** The four little-endian bytes of a 32-bit word. */
  function WordBytes(x: int): (b: seq<byte>)
    requires IsWord(x)
    ensures |b| == 4
  {
    [(x % 0x100) as byte, (x / 0x100 % 0x100) as byte, (x / 0x1_0000 % 0x100) as byte, (x / 0x100_0000) as byte]
  }

  lemma WordOfBytes(x: int)
    requires IsWord(x)
    ensures Word(WordBytes(x), 0) == x
  {
    var q0 := x / 0x100;
    var q1 := q0 / 0x100;
    assert x / 0x1_0000 == q1;
    assert x / 0x100_0000 == q1 / 0x100;
  }

  /** The record that starts at byte `off`. */
  function RecordAt(data: seq<byte>, off: nat): Record
    requires off + RECORD_SIZE <= |data|
  {
    Record(Word(data, off), Word(data, off + 4), Word(data, off + 8))
  }

  /** The records of a scan: one per complete 20-byte block, in order. */
  function Records(data: seq<byte>): (r: seq<Record>)
    ensures |r| == |data| / RECORD_SIZE
    ensures forall i :: 0 <= i < |r| ==> r[i] == RecordAt(data, RECORD_SIZE * i)
    ensures forall i :: 0 <= i < |r| ==> WordFields(r[i])
    decreases |data|
  {
    if |data| < RECORD_SIZE then []
    else
      var rest := Records(data[RECORD_SIZE..]);
      forall i | 0 <= i < |rest|
        ensures rest[i] == RecordAt(data, RECORD_SIZE * (i + 1))
      {
        assert rest[i] == RecordAt(data[RECORD_SIZE..], RECORD_SIZE * i);
      }
      [RecordAt(data, 0)] + rest
  }

  /** The 20 bytes of one record; the condition bytes are given. */
  function RecordBytes(r: Record, condition: seq<byte>): (b: seq<byte>)
    requires WordFields(r) && |condition| == 8
    ensures |b| == RECORD_SIZE
  {
    WordBytes(r.baseID) + WordBytes(r.count) + WordBytes(r.equipped) + condition
  }

  /** A packed scan of `rs`, every condition zero. */
  function Pack(rs: seq<Record>): (b: seq<byte>)
    requires forall i :: 0 <= i < |rs| ==> WordFields(rs[i])
    ensures |b| == RECORD_SIZE * |rs|
  {
    if rs == [] then [] else RecordBytes(rs[0], [0, 0, 0, 0, 0, 0, 0, 0]) + Pack(rs[1..])
  }

  lemma RecordOfBytes(r: Record, condition: seq<byte>, tail: seq<byte>)
    requires WordFields(r) && |condition| == 8
    ensures RecordAt(RecordBytes(r, condition) + tail, 0) == r
  {
    var d := RecordBytes(r, condition) + tail;
    WordOfBytes(r.baseID);
    WordOfBytes(r.count);
    WordOfBytes(r.equipped);
    assert d[0..4] == WordBytes(r.baseID);
    assert d[4..8] == WordBytes(r.count);
    assert d[8..12] == WordBytes(r.equipped);
  }

  /** Splitting a packed scan gives back its records. */
  lemma {:induction false} RecordsOfPack(rs: seq<Record>)
    requires forall i :: 0 <= i < |rs| ==> WordFields(rs[i])
    ensures Records(Pack(rs)) == rs
  {
    if rs != [] {
      var head := RecordBytes(rs[0], [0, 0, 0, 0, 0, 0, 0, 0]);
      var d := Pack(rs);
      assert d == head + Pack(rs[1..]);
      RecordOfBytes(rs[0], [0, 0, 0, 0, 0, 0, 0, 0], Pack(rs[1..]));
      assert d[RECORD_SIZE..] == Pack(rs[1..]);
      RecordsOfPack(rs[1..]);
    }
  }

  /** Bytes past the last complete record do not change the split. */
  lemma {:induction false} TrailingBytesIgnored(data: seq<byte>, extra: seq<byte>)
    requires |data| % RECORD_SIZE == 0 && |extra| < RECORD_SIZE
    ensures Records(data + extra) == Records(data)
    decreases |data|
  {
    if |data| >= RECORD_SIZE {
      assert (data + extra)[RECORD_SIZE..] == data[RECORD_SIZE..] + extra;
      TrailingBytesIgnored(data[RECORD_SIZE..], extra);
      assert RecordAt(data + extra, 0) == RecordAt(data, 0);
    }
  }
}
