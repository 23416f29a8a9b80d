/** Directory records: written by sys_getdents64, read back by the shell's ls. */
module Dirent {
  import opened Prelude

  const HDR: nat := 19
  const DT_DIR: Byte := 4
  const DT_REG: Byte := 8
  const MIN_COUNT: nat := 32
  const U16: nat := 0x1_0000

  type Bytes = seq<Byte>

  datatype Entry = Entry(name: Bytes, isDir: bool)

  /** Header, name and NUL, rounded up to a multiple of 8. */
  function RecLen(e: Entry): (n: nat)
    ensures HDR + |e.name| < n
  {
    (HDR + |e.name| + 1 + 7) / 8 * 8
  }

  function LittleEndian(v: nat, n: nat): (b: Bytes)
    ensures |b| == n
    decreases n
  {
    if n == 0 then [] else [v % 256] + LittleEndian(v / 256, n - 1)
  }

  function Zeros(n: nat): Bytes { seq(n, _ => 0) }

  /** The packed 19-byte header of the record at offset `pos`: inode, offset of the next record, length, kind. */
  function Header(e: Entry, pos: nat, ino: nat): (h: Bytes)
    ensures |h| == HDR
  {
    LittleEndian(ino, 8) + LittleEndian(pos + RecLen(e), 8) + LittleEndian(RecLen(e), 2) + [if e.isDir then DT_DIR else DT_REG]
  }

  /** One record; the NUL and the padding are zeros. */
  function Record(e: Entry, pos: nat, ino: nat): (r: Bytes)
    ensures |r| == RecLen(e)
  {
    Header(e, pos, ino) + e.name + Zeros(RecLen(e) - HDR - |e.name|)
  }

  /** The first `n` records, one after the other. */
  function Encode(entries: seq<Entry>, n: nat): Bytes
    requires n <= |entries|
  {
    if n == 0 then [] else var b := Encode(entries, n - 1); b + Record(entries[n - 1], |b|, 2 + (n - 1))
  }

  function Size(entries: seq<Entry>, n: nat): nat
    requires n <= |entries|
  {
    if n == 0 then 0 else Size(entries, n - 1) + RecLen(entries[n - 1])
  }

  /** How many records the writer's loop emits: it stops at the first that does not fit. */
  function Fitting(entries: seq<Entry>, max: nat, n: nat): (k: nat)
    requires n <= |entries| && Size(entries, n) <= max
    ensures n <= k <= |entries| && Size(entries, k) <= max
    ensures k < |entries| ==> Size(entries, k + 1) > max
    decreases |entries| - n
  {
    if n < |entries| && Size(entries, n + 1) <= max then Fitting(entries, max, n + 1) else n
  }

  /** The bytes left in the buffer. */
  function Written(entries: seq<Entry>, max: nat): Bytes { Encode(entries, Fitting(entries, max, 0)) }

  // ---------- the reader ----------

  function Word16(b: Bytes, pos: nat): nat
    requires pos + 2 <= |b|
  {
    var lo: nat, hi: nat := b[pos], b[pos + 1];
    lo + 256 * hi
  }

  /** The first NUL at or after `from`, but not beyond `limit`. */
  function NameEnd(b: Bytes, from: nat, limit: nat): (e: nat)
    requires limit <= |b|
    ensures from <= e <= Max(from, limit)
    decreases limit - from
  {
    if from < limit && b[from] != 0 then NameEnd(b, from + 1, limit) else from
  }

  /** What one iteration of cmd_ls prints for the record at `pos`: nothing when the name is empty. */
  function Shown(b: Bytes, pos: nat, reclen: nat): seq<Entry>
    requires pos + HDR <= |b|
  {
    var end := NameEnd(b, pos + HDR, Min(pos + reclen, |b|));
    if end > pos + HDR then [Entry(b[pos + HDR..end], b[pos + 18] == DT_DIR)] else []
  }

  /** The loop of cmd_ls from offset `pos`: records until one is cut short or has length 0. */
  function Parse(b: Bytes, pos: nat): seq<Entry>
    decreases |b| - pos
  {
    if pos + HDR > |b| || Word16(b, pos + 16) == 0 then []
    else Shown(b, pos, Word16(b, pos + 16)) + Parse(b, pos + Word16(b, pos + 16))
  }

  // ---------- the round trip ----------

  predicate Printable(e: Entry) { e.name != [] && 0 !in e.name }

  lemma {:induction false} EncodeSize(entries: seq<Entry>, n: nat)
    requires n <= |entries|
    ensures |Encode(entries, n)| == Size(entries, n)
  {
    hide Record; hide RecLen;
    if n == 0 {
    } else {
      EncodeSize(entries, n - 1);
    }
  }

  /** A record stands at its offset in the encoding of any longer prefix. */
  lemma {:induction false} RecordAt(entries: seq<Entry>, i: nat, n: nat)
    requires i < n <= |entries|
    ensures Size(entries, i + 1) <= Size(entries, n) == |Encode(entries, n)|
    ensures Encode(entries, n)[Size(entries, i)..Size(entries, i + 1)] == Record(entries[i], Size(entries, i), 2 + i)
    decreases n
  {
    hide Record; hide RecLen;
    EncodeSize(entries, n);
    EncodeSize(entries, n - 1);
    EncodeSize(entries, i);
    if i < n - 1 {
      RecordAt(entries, i, n - 1);
      assert Encode(entries, n)[..Size(entries, n - 1)] == Encode(entries, n - 1);
      assert Encode(entries, n)[Size(entries, i)..Size(entries, i + 1)] == Encode(entries, n - 1)[Size(entries, i)..Size(entries, i + 1)];
    }
  }

  lemma {:induction false} TwoBytes(v: nat)
    ensures Word16(LittleEndian(v, 2), 0) == v % U16
  {
    assert LittleEndian(v, 2) == [v % 256] + LittleEndian(v / 256, 1);
    assert LittleEndian(v / 256, 1) == [v / 256 % 256] + LittleEndian(v / 256 / 256, 0);
  }

  lemma {:induction false} HeaderFields(e: Entry, pos: nat, ino: nat)
    ensures Word16(Header(e, pos, ino), 16) == RecLen(e) % U16
    ensures Header(e, pos, ino)[18] == (if e.isDir then DT_DIR else DT_REG)
  {
    hide LittleEndian; hide RecLen;
    var h, l := Header(e, pos, ino), LittleEndian(RecLen(e), 2);
    assert h[16] == l[0] && h[17] == l[1];
    TwoBytes(RecLen(e));
  }

  lemma {:induction false} NameEndAt(b: Bytes, from: nat, limit: nat, k: nat)
    requires from <= k < limit <= |b| && b[k] == 0 && forall j :: from <= j < k ==> b[j] != 0
    ensures NameEnd(b, from, limit) == k
    decreases k - from
  {
    if from == k {
    } else {
      NameEndAt(b, from + 1, limit, k);
    }
  }

  lemma {:induction false} RecordFields(e: Entry, pos: nat, ino: nat)
    ensures var r := Record(e, pos, ino);
            && Word16(r, 16) == RecLen(e) % U16 && r[18] == (if e.isDir then DT_DIR else DT_REG)
            && r[HDR..HDR + |e.name|] == e.name && r[HDR + |e.name|] == 0
  {
    hide RecLen; hide Header; hide LittleEndian;
    HeaderFields(e, pos, ino);
    var r, h := Record(e, pos, ino), Header(e, pos, ino);
    assert r[16] == h[16] && r[17] == h[17] && r[18] == h[18];
  }

  /** A record's length survives its 16-bit field. */
  predicate LengthFits(e: Entry) { RecLen(e) < U16 }

  /** The length field of a record standing at `pos`. */
  lemma {:induction false} LengthAt(b: Bytes, pos: nat, e: Entry, ino: nat)
    requires pos + RecLen(e) <= |b| && b[pos..pos + RecLen(e)] == Record(e, pos, ino)
    ensures pos + HDR <= |b| && Word16(b, pos + 16) == RecLen(e) % U16
  {
    hide RecLen; hide Record;
    RecordFields(e, pos, ino);
    var r := b[pos..pos + RecLen(e)];
    assert b[pos + 16] == r[16] && b[pos + 17] == r[17];
  }

  lemma {:induction false} SliceOfSlice(b: Bytes, p: nat, q: nat, i: nat, j: nat)
    requires p <= q <= |b| && i <= j <= q - p
    ensures b[p..q][i..j] == b[p + i..p + j]
  {
    var x, y := b[p..q][i..j], b[p + i..p + j];
    forall k | 0 <= k < |x| ensures x[k] == y[k] { assert b[p..q][i + k] == b[p + (i + k)]; }
  }

  /** A record standing at `pos` prints its own entry. */
  lemma {:induction false} ShowsRecord(b: Bytes, pos: nat, e: Entry, ino: nat)
    requires Printable(e) && LengthFits(e)
    requires pos + RecLen(e) <= |b| && b[pos..pos + RecLen(e)] == Record(e, pos, ino)
    ensures Word16(b, pos + 16) == RecLen(e) && Shown(b, pos, RecLen(e)) == [e]
  {
    hide RecLen; hide Record;
    RecordFields(e, pos, ino);
    var r, k := b[pos..pos + RecLen(e)], pos + HDR + |e.name|;
    assert b[pos + 16] == r[16] && b[pos + 17] == r[17] && b[pos + 18] == r[18] && b[k] == r[HDR + |e.name|];
    SliceOfSlice(b, pos, pos + RecLen(e), HDR, HDR + |e.name|);
    assert b[pos + HDR..k] == e.name;
    forall j | pos + HDR <= j < k ensures b[j] != 0 { assert b[j] == e.name[j - pos - HDR]; }
    NameEndAt(b, pos + HDR, pos + RecLen(e), k);
  }

  predicate AllFit(entries: seq<Entry>, n: nat)
    requires n <= |entries|
  {
    forall j :: 0 <= j < n ==> LengthFits(entries[j])
  }

  /** The reader at a record: its entry, then the rest. */
  lemma {:induction false} ParseRecord(b: Bytes, pos: nat, e: Entry, ino: nat)
    requires Printable(e) && LengthFits(e)
    requires pos + RecLen(e) <= |b| && b[pos..pos + RecLen(e)] == Record(e, pos, ino)
    ensures Parse(b, pos) == [e] + Parse(b, pos + RecLen(e))
  {
    hide Record; hide Shown; hide Word16; hide Printable;
    ShowsRecord(b, pos, e, ino);
    hide RecLen;
  }

  /** From the offset of record `i` the reader lists the entries up to `j`, then goes on at record `j`. */
  lemma {:induction false} ParseUpTo(entries: seq<Entry>, i: nat, j: nat, n: nat)
    requires i <= j <= n <= |entries|
    requires forall k :: i <= k < j ==> Printable(entries[k]) && LengthFits(entries[k])
    ensures var b := Encode(entries, n); Parse(b, Size(entries, i)) == entries[i..j] + Parse(b, Size(entries, j))
    decreases j - i
  {
    hide Record; hide RecLen; hide Encode; hide Parse; hide LengthFits; hide Printable;
    if i == j {
    } else {
      EncodeSize(entries, n);
      RecordAt(entries, i, n);
      ParseRecord(Encode(entries, n), Size(entries, i), entries[i], 2 + i);
      ParseUpTo(entries, i + 1, j, n);
      assert entries[i..j] == [entries[i]] + entries[i + 1..j];
    }
  }

  /** No record shows a name longer than its 16-bit length leaves room for. */
  lemma {:induction false} ShownNames(b: Bytes, pos: nat)
    ensures forall e :: e in Parse(b, pos) ==> |e.name| < U16 - HDR
    decreases |b| - pos
  {
    if pos + HDR > |b| || Word16(b, pos + 16) == 0 {
    } else {
      ShownNames(b, pos + Word16(b, pos + 16));
    }
  }

  /** A record whose 16-bit length is zero ends the listing. */
  lemma {:induction false} ZeroLengthEnds(entries: seq<Entry>, j: nat, n: nat)
    requires j < n <= |entries| && RecLen(entries[j]) % U16 == 0
    ensures Parse(Encode(entries, n), Size(entries, j)) == []
  {
    hide Record; hide RecLen; hide Encode; hide Word16;
    RecordAt(entries, j, n);
    LengthAt(Encode(entries, n), Size(entries, j), entries[j], 2 + j);
  }

  lemma {:induction false} LongName(e: Entry)
    requires !LengthFits(e) && RecLen(e) % U16 != 0
    ensures |e.name| >= U16 - HDR
  {
  }

  /** A record whose length does not fit its field is never read back as its entry: it ends the listing or its name is cut. */
  lemma {:induction false} LongRecordLost(entries: seq<Entry>, j: nat, n: nat)
    requires j < n <= |entries| && !LengthFits(entries[j])
    requires forall k :: 0 <= k < j ==> Printable(entries[k]) && LengthFits(entries[k])
    ensures Parse(Encode(entries, n), 0) != entries[..n]
  {
    hide RecLen; hide Encode; hide Parse; hide Printable; hide LengthFits;
    if RecLen(entries[j]) % U16 == 0 {
      ParseUpTo(entries, 0, j, n);
      ZeroLengthEnds(entries, j, n);
      assert |entries[0..j] + []| == j;
    } else {
      ShownNames(Encode(entries, n), 0);
      LongName(entries[j]);
      assert entries[j] in entries[..n];
    }
  }

  lemma {:induction false} SizeMonotone(entries: seq<Entry>, i: nat, n: nat)
    requires i <= n <= |entries|
    ensures Size(entries, i) <= Size(entries, n)
  {
    if i == n {
    } else {
      SizeMonotone(entries, i, n - 1);
    }
  }

  /** In a buffer of at most 65535 bytes every record that fits has a length that fits. */
  lemma {:induction false} SmallBufferFits(entries: seq<Entry>, max: nat)
    requires max < U16
    ensures AllFit(entries, Fitting(entries, max, 0))
  {
    var n := Fitting(entries, max, 0);
    forall j | 0 <= j < n ensures LengthFits(entries[j]) { SizeMonotone(entries, j + 1, n); }
  }

  lemma {:induction false} FirstLong(entries: seq<Entry>, n: nat) returns (j: nat)
    requires n <= |entries| && !AllFit(entries, n)
    ensures j < n && !LengthFits(entries[j]) && AllFit(entries, j)
  {
    j := 0;
    while LengthFits(entries[j])
      invariant j < n && AllFit(entries, j)
      decreases n - j
    {
      j := j + 1;
    }
  }

  /** The shell reads back exactly the longest prefix of the listing that fits the buffer, names and kinds intact, if and
      only if each record of it has a length that fits the 16-bit field; in buffers up to 65535 bytes all do. */
  lemma {:induction false} RoundTrip(entries: seq<Entry>, max: nat)
    requires forall j :: 0 <= j < |entries| ==> Printable(entries[j])
    ensures var n := Fitting(entries, max, 0);
            && (Parse(Written(entries, max), 0) == entries[..n] <==> AllFit(entries, n))
            && (max < U16 ==> Parse(Written(entries, max), 0) == entries[..n])
  {
    var n := Fitting(entries, max, 0);
    if max < U16 { SmallBufferFits(entries, max); }
    hide Parse; hide Encode; hide Fitting; hide LengthFits; hide Printable;
    if AllFit(entries, n) {
      ParseUpTo(entries, 0, n, n);
      NothingAfter(entries, n);
    } else {
      var j := FirstLong(entries, n);
      LongRecordLost(entries, j, n);
    }
  }

  lemma {:induction false} NothingAfter(entries: seq<Entry>, n: nat)
    requires n <= |entries|
    ensures Size(entries, 0) == 0 && Parse(Encode(entries, n), Size(entries, n)) == []
  {
    EncodeSize(entries, n);
  }

  /** The prefix is the longest: any longer one overflows the buffer. */
  lemma {:induction false} FittingIsLongest(entries: seq<Entry>, max: nat, k: nat)
    requires Fitting(entries, max, 0) < k <= |entries|
    ensures |Encode(entries, k)| > max
  {
    EncodeSize(entries, k);
    SizeMonotone(entries, Fitting(entries, max, 0) + 1, k);
  }

  // ---------- the numbers in a record ----------

  /** What bytes spell, least significant first. */
  function Number(b: Bytes): nat { if b == [] then 0 else b[0] + 256 * Number(b[1..]) }

  function Range(n: nat): nat { if n == 0 then 1 else 256 * Range(n - 1) }

  lemma {:induction false} LittleEndianSpells(v: nat, n: nat)
    requires v < Range(n)
    ensures Number(LittleEndian(v, n)) == v
    decreases n
  {
    if n == 0 {
    } else {
      LittleEndianSpells(v / 256, n - 1);
      assert LittleEndian(v, n)[1..] == LittleEndian(v / 256, n - 1);
    }
  }

  lemma {:induction false} HeaderNumbers(e: Entry, pos: nat, ino: nat)
    requires ino < WORD_LIMIT && pos + RecLen(e) < WORD_LIMIT
    ensures var h := Header(e, pos, ino); Number(h[..8]) == ino && Number(h[8..16]) == pos + RecLen(e)
  {
    assert Range(8) == WORD_LIMIT by { assert Range(4) == 0x1_0000_0000; }
    LittleEndianSpells(ino, 8);
    LittleEndianSpells(pos + RecLen(e), 8);
    hide RecLen; hide LittleEndian;
    assert Header(e, pos, ino)[..8] == LittleEndian(ino, 8);
    assert Header(e, pos, ino)[8..16] == LittleEndian(pos + RecLen(e), 8);
  }

  lemma {:induction false} RecLenLeast(e: Entry)
    ensures 20 + |e.name| <= RecLen(e) < 28 + |e.name| && RecLen(e) % 8 == 0
  {
  }

  lemma {:induction false} RecordStarts(e: Entry, pos: nat, ino: nat)
    requires ino < WORD_LIMIT && pos + RecLen(e) < WORD_LIMIT
    ensures var r := Record(e, pos, ino);
            && Number(r[0..8]) == ino && Number(r[8..16]) == pos + RecLen(e) && r[18] == if e.isDir then 4 else 8
  {
    HeaderNumbers(e, pos, ino);
    RecordFields(e, pos, ino);
    var r, h := Record(e, pos, ino), Header(e, pos, ino);
    hide RecLen; hide Header; hide Number;
    assert r[0..8] == h[..8] && r[8..16] == h[8..16];
  }

  /** The record between two offsets carries this inode number, then the second offset, then its kind. */
  predicate Numbered(b: Bytes, pos: nat, next: nat, ino: nat, kind: nat)
    requires pos + 20 <= next <= |b|
  {
    Number(b[pos..pos + 8]) == ino && Number(b[pos + 8..pos + 16]) == next && b[pos + 18] == kind
  }

  lemma {:induction false} NumbersAt(b: Bytes, pos: nat, e: Entry, ino: nat)
    requires pos + RecLen(e) <= |b| && b[pos..pos + RecLen(e)] == Record(e, pos, ino)
    requires ino < WORD_LIMIT && pos + RecLen(e) < WORD_LIMIT
    ensures Numbered(b, pos, pos + RecLen(e), ino, if e.isDir then 4 else 8)
  {
    hide Record; hide Number; hide RecLen;
    RecordStarts(e, pos, ino);
    RecLenLeast(e);
    SliceOfSlice(b, pos, pos + RecLen(e), 0, 8);
    SliceOfSlice(b, pos, pos + RecLen(e), 8, 16);
    assert b[pos + 18] == b[pos..pos + RecLen(e)][18];
  }

  /** In the buffer: record `i` carries the inode number 2 + i, then the offset at which the next record starts, then its
      kind (4 for a directory, 8 for a file); and the next one starts at the first multiple of 8 that leaves room for
      header, name and NUL. */
  lemma {:induction false} RecordNumbers(entries: seq<Entry>, i: nat, n: nat)
    requires i < n <= |entries| && 2 + i < WORD_LIMIT && Size(entries, i + 1) < WORD_LIMIT
    ensures var pos, next, least := Size(entries, i), Size(entries, i + 1), 20 + |entries[i].name|;
            && pos + least <= next < pos + least + 8 && (next - pos) % 8 == 0 && next <= |Encode(entries, n)|
            && Numbered(Encode(entries, n), pos, next, 2 + i, if entries[i].isDir then 4 else 8)
  {
    hide Record; hide Encode; hide Number; hide RecLen; hide Numbered;
    RecordAt(entries, i, n);
    RecLenLeast(entries[i]);
    NumbersAt(Encode(entries, n), Size(entries, i), entries[i], 2 + i);
  }

  // ---------- the two loops ----------

  lemma {:induction false} PutAfter(done: Bytes, r: Bytes, was: Bytes)
    requires |done| + |r| <= |was|
    ensures var now := done + was[|done|..];
            now[..|done|] + r + now[|done| + |r|..] == (done + r) + was[|done + r|..]
  {
  }

  lemma {:induction false} EncodeNothing(entries: seq<Entry>)
    ensures Encode(entries, 0) == []
  {
  }

  lemma {:induction false} EncodeNext(entries: seq<Entry>, i: nat)
    requires i < |entries|
    ensures Encode(entries, i + 1) == Encode(entries, i) + Record(entries[i], |Encode(entries, i)|, 2 + i)
    ensures |Encode(entries, i + 1)| == Size(entries, i + 1)
  {
    EncodeSize(entries, i + 1);
    hide Record; hide RecLen;
  }

  lemma {:induction false} FittingStep(entries: seq<Entry>, max: nat, i: nat)
    requires i <= |entries| && Size(entries, i) <= max
    ensures if i < |entries| && Size(entries, i) + RecLen(entries[i]) <= max then Fitting(entries, max, i) == Fitting(entries, max, i + 1)
            else Fitting(entries, max, i) == i
  {
  }

  /** sys_getdents64 from the listing on; None is EINVAL. */
  method GetDents(entries: seq<Entry>, buf: array<Byte>, max: nat) returns (r: Option<nat>)
    requires max <= buf.Length
    modifies buf
    ensures r.None? <==> max < MIN_COUNT
    ensures r.None? ==> buf[..] == old(buf[..])
    ensures r.Some? ==> r.value == |Written(entries, max)| <= max
    ensures r.Some? ==> buf[..] == Written(entries, max) + old(buf[..])[r.value..]
  {
    hide Record; hide RecLen; hide Encode; hide Fitting;
    EncodeSize(entries, 0);
    EncodeNothing(entries);
    if max < MIN_COUNT { return None; }
    var pos, i := 0, 0;
    while i < |entries| && pos + RecLen(entries[i]) <= max
      invariant 0 <= i <= |entries| && pos == Size(entries, i) == |Encode(entries, i)| <= max
      invariant Fitting(entries, max, i) == Fitting(entries, max, 0)
      invariant buf[..] == Encode(entries, i) + old(buf[..])[pos..]
    {
      FittingStep(entries, max, i);
      PutRecord(entries, i, buf, pos, old(buf[..]));
      EncodeNext(entries, i);
      pos := pos + RecLen(entries[i]);
      i := i + 1;
    }
    FittingStep(entries, max, i);
    return Some(pos);
  }

  method PutRecord(entries: seq<Entry>, i: nat, buf: array<Byte>, pos: nat, ghost was: Bytes)
    requires i < |entries| && pos == |Encode(entries, i)| && pos + RecLen(entries[i]) <= |was|
    requires buf[..] == Encode(entries, i) + was[pos..]
    modifies buf
    ensures buf[..] == Encode(entries, i + 1) + was[pos + RecLen(entries[i])..]
  {
    hide Encode; hide RecLen; hide Record;
    var r := Record(entries[i], pos, 2 + i);
    PutBytes(buf, pos, r);
    PutAfter(Encode(entries, i), r, was);
    EncodeNext(entries, i);
  }

  method PutBytes(buf: array<Byte>, pos: nat, bytes: Bytes)
    requires pos + |bytes| <= buf.Length
    modifies buf
    ensures buf[..] == old(buf[..])[..pos] + bytes + old(buf[..])[pos + |bytes|..]
  {
    for j := 0 to |bytes|
      invariant forall k :: 0 <= k < buf.Length ==> buf[k] == if pos <= k < pos + j then bytes[k - pos] else old(buf[k])
    {
      buf[pos + j] := bytes[j];
    }
  }

  /** cmd_ls: walk the `total` bytes the kernel returned. */
  method ListNames(buf: array<Byte>, total: nat) returns (out: seq<Entry>)
    requires total <= buf.Length
    ensures out == Parse(buf[..total], 0)
  {
    hide Word16; hide Shown;
    ghost var b := buf[..total];
    out := [];
    var pos := 0;
    while pos + HDR <= total
      invariant out + Parse(b, pos) == Parse(b, 0)
      decreases total - pos
    {
      var reclen := ReadWord16(buf, pos + 16, b);
      if reclen == 0 { break; }
      var line := Show(buf, total, pos, reclen);
      assert (out + line) + Parse(b, pos + reclen) == out + (line + Parse(b, pos + reclen));
      out := out + line;
      pos := pos + reclen;
    }
  }

  method Show(buf: array<Byte>, total: nat, pos: nat, reclen: nat) returns (line: seq<Entry>)
    requires pos + HDR <= total <= buf.Length
    ensures line == Shown(buf[..total], pos, reclen)
  {
    hide NameEnd;
    ghost var b := buf[..total];
    var end := FindNul(buf, pos + HDR, Min(pos + reclen, total), b);
    if end == pos + HDR { return []; }
    assert buf[pos + HDR..end] == b[pos + HDR..end];
    line := [Entry(buf[pos + HDR..end], buf[pos + 18] == DT_DIR)];
  }

  method ReadWord16(buf: array<Byte>, pos: nat, ghost b: Bytes) returns (v: nat)
    requires pos + 2 <= |b| <= buf.Length && b == buf[..|b|]
    ensures v == Word16(b, pos)
  {
    var lo: nat, hi: nat := buf[pos], buf[pos + 1];
    v := lo + 256 * hi;
  }

  /** The inner loop of cmd_ls. */
  method FindNul(buf: array<Byte>, from: nat, limit: nat, ghost b: Bytes) returns (end: nat)
    requires limit <= |b| <= buf.Length && b == buf[..|b|]
    ensures end == NameEnd(b, from, limit)
  {
    end := from;
    while end < limit && buf[end] != 0
      invariant from <= end && NameEnd(b, end, limit) == NameEnd(b, from, limit)
      decreases limit - end
    {
      end := end + 1;
    }
  }
}
