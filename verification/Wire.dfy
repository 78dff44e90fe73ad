/** The wire records of hft_test/include/protocol.h as bytes.

    On x86-64 both structs are sequences of little-endian 8-byte words: the header and its
    padding fill word 0, the single bytes of a record share one word.
    */
module Wire {
  import opened Basics
  import opened Framing

  const UINT64 := 0x1_0000_0000_0000_0000
  const MAGIC := 0xA11C
  const MSG_NEW_ORDER := 1
  const MSG_EXEC_REPORT := 2

  type Word = n: nat | n < UINT64

  type Int64 = i: int | -0x8000_0000_0000_0000 <= i < 0x8000_0000_0000_0000

  datatype NewOrder = NewOrder(clOrdId: Word, mdEventId: Word, side: Byte, ordType: Byte, tif: Byte, px: Int64,
      qty: Int64, sentAt: Int64)

  datatype ExecReport = ExecReport(clOrdId: Word, mdEventId: Word, execType: Byte, fillPx: Int64, fillQty: Int64,
      recvAt: Int64, sentAt: Int64)

  // ---------- Words ----------

  function LittleEndian(n: nat, k: nat): (b: seq<Byte>)
    ensures |b| == k
  {
    if k == 0 then [] else [n % 256] + LittleEndian(n / 256, k - 1)
  }

  function FromLittle(b: seq<Byte>): nat
  {
    if b == [] then 0 else (b[0] as int) + 256 * FromLittle(b[1..])
  }

  lemma {:induction false} LittleEndianRoundTrip(n: nat, k: nat)
    requires n < Bound(k)
    ensures FromLittle(LittleEndian(n, k)) == n
  {
    if k > 0 {
      LittleEndianRoundTrip(n / 256, k - 1);
      assert LittleEndian(n, k)[1..] == LittleEndian(n / 256, k - 1);
    }
  }

  lemma {:induction false} FromLittleBound(b: seq<Byte>)
    ensures FromLittle(b) < Bound(|b|)
  {
    if b != [] {
      FromLittleBound(b[1..]);
    }
  }

  lemma WordBound()
    ensures Bound(8) == UINT64
  {
    assert Bound(2) == 0x1_0000;
    assert Bound(4) == 256 * Bound(3) == 0x1_0000_0000;
    assert Bound(6) == 256 * Bound(5) == 0x1_0000_0000_0000;
    assert Bound(8) == 256 * Bound(7);
  }

  function Words(ws: seq<Word>): (b: seq<Byte>)
    ensures |b| == 8 * |ws|
  {
    if ws == [] then [] else LittleEndian(ws[0], 8) + Words(ws[1..])
  }

  function ReadWord(b: seq<Byte>, i: nat): (w: Word)
    requires 8 * i + 8 <= |b|
  {
    WordBound();
    FromLittleBound(b[8 * i..8 * i + 8]);
    FromLittle(b[8 * i..8 * i + 8])
  }

  lemma {:induction false} WordsRoundTrip(ws: seq<Word>, i: nat)
    requires i < |ws|
    ensures ReadWord(Words(ws), i) == ws[i]
  {
    var b, first := Words(ws), LittleEndian(ws[0], 8);
    if i == 0 {
      WordBound();
      assert b[0..8] == first;
      LittleEndianRoundTrip(ws[0], 8);
    } else {
      assert b[8 * i..8 * i + 8] == Words(ws[1..])[8 * (i - 1)..8 * (i - 1) + 8];
      WordsRoundTrip(ws[1..], i - 1);
    }
  }

  function ToWord(i: Int64): Word
  {
    if i < 0 then i + UINT64 else i
  }

  function ToInt64(w: Word): Int64
  {
    if w >= 0x8000_0000_0000_0000 then w - UINT64 else w
  }

  function HeaderWord(msgType: Byte): Word
  {
    MAGIC + 0x1_0000 * msgType as int
  }

  predicate HasHeader(w: Word, msgType: Byte)
  {
    w % 0x1_0000 == MAGIC && w / 0x1_0000 % 256 == msgType
  }

  lemma LowByte(low: Byte, high: nat)
    ensures (low as int + 256 * high) % 256 == low as int && (low as int + 256 * high) / 256 == high
  {
  }

  lemma {:induction false} FromLittleRoundTrip(b: seq<Byte>)
    ensures LittleEndian(FromLittle(b), |b|) == b
  {
    if b != [] {
      var low, rest := b[0], b[1..];
      FromLittleRoundTrip(rest);
      LowByte(low, FromLittle(rest));
      assert b == [low] + rest;
    }
  }

  /** Single bytes that share a word. */
  function Flags(b: seq<Byte>): Word
    requires |b| == 3
  {
    FromLittleBound(b);
    assert Bound(1) == 256 && Bound(3) == 256 * Bound(2);
    FromLittle(b)
  }

  // ---------- Records ----------

  function OrderWords(w: NewOrder): seq<Word>
  {
    [HeaderWord(MSG_NEW_ORDER), w.clOrdId, w.mdEventId, Flags([w.side, w.ordType, w.tif]),
     ToWord(w.px), ToWord(w.qty), ToWord(w.sentAt)]
  }

  function EncodeOrder(w: NewOrder): (b: seq<Byte>)
    ensures |b| == 56
  {
    Words(OrderWords(w))
  }

  /** The checks of `parse_messages`: size, magic, type. */
  function DecodeOrder(b: seq<Byte>): Option<NewOrder>
  {
    if |b| < 56 || !HasHeader(ReadWord(b, 0), MSG_NEW_ORDER) then None
    else
      var flags := LittleEndian(ReadWord(b, 3), 3);
      Some(NewOrder(ReadWord(b, 1), ReadWord(b, 2), flags[0], flags[1], flags[2],
                    ToInt64(ReadWord(b, 4)), ToInt64(ReadWord(b, 5)), ToInt64(ReadWord(b, 6))))
  }

  lemma OrderRoundTrip(w: NewOrder)
    ensures DecodeOrder(EncodeOrder(w)) == Some(w)
  {
    var ws, b := OrderWords(w), EncodeOrder(w);
    forall i | 0 <= i < 7 ensures ReadWord(b, i) == ws[i] {
      WordsRoundTrip(ws, i);
    }
    FromLittleRoundTrip([w.side, w.ordType, w.tif]);
  }

  function ReportWords(r: ExecReport): seq<Word>
  {
    [HeaderWord(MSG_EXEC_REPORT), r.clOrdId, r.mdEventId, r.execType as int,
     ToWord(r.fillPx), ToWord(r.fillQty), ToWord(r.recvAt), ToWord(r.sentAt), 0]
  }

  function EncodeReport(r: ExecReport): (b: seq<Byte>)
    ensures |b| == 72
  {
    Words(ReportWords(r))
  }

  /** The checks of `parse_exec_reports`: size, magic, type. */
  function DecodeReport(b: seq<Byte>): Option<ExecReport>
  {
    if |b| < 72 || !HasHeader(ReadWord(b, 0), MSG_EXEC_REPORT) then None
    else
      Some(ExecReport(ReadWord(b, 1), ReadWord(b, 2), ReadWord(b, 3) % 256,
                      ToInt64(ReadWord(b, 4)), ToInt64(ReadWord(b, 5)), ToInt64(ReadWord(b, 6)), ToInt64(ReadWord(b, 7))))
  }

  lemma ReportRoundTrip(r: ExecReport)
    ensures DecodeReport(EncodeReport(r)) == Some(r)
  {
    var ws := ReportWords(r);
    forall i | 0 <= i < 9 ensures ReadWord(EncodeReport(r), i) == ws[i] {
      WordsRoundTrip(ws, i);
    }
  }

  // ---------- The layout, byte by byte ----------

  /** Byte number `j` of a word, the least significant first. */
  lemma {:induction false} LittleEndianByte(n: nat, k: nat, j: nat)
    requires j < k
    ensures LittleEndian(n, k)[j] == n / Bound(j) % 256
  {
    if j > 0 {
      LittleEndianByte(n / 256, k - 1, j - 1);
      DivideTwice(n, 256, Bound(j - 1));
    }
  }

  lemma {:induction false} ZeroBytes(k: nat, j: nat)
    requires j < k
    ensures LittleEndian(0, k)[j] == 0
  {
    if j > 0 {
      ZeroBytes(k - 1, j - 1);
    }
  }

  /** A word that is made of a few bytes holds them and then zeros. */
  lemma {:induction false} BytesOfWord(low: seq<Byte>, k: nat, j: nat)
    requires |low| <= k && j < k
    ensures LittleEndian(FromLittle(low), k)[j] == if j < |low| then low[j] else 0
  {
    if low == [] {
      ZeroBytes(k, j);
    } else {
      LowByte(low[0], FromLittle(low[1..]));
      if j > 0 {
        BytesOfWord(low[1..], k - 1, j - 1);
      }
    }
  }

  lemma {:induction false} WordOfBytes(low: seq<Byte>, all: seq<Byte>)
    requires |low| <= |all| && forall j: nat | j < |all| :: all[j] == if j < |low| then low[j] else 0
    ensures LittleEndian(FromLittle(low), |all|) == all
  {
    forall j: nat | j < |all| ensures LittleEndian(FromLittle(low), |all|)[j] == all[j] {
      BytesOfWord(low, |all|, j);
    }
  }

  lemma {:induction false} WordsAre(ws: seq<Word>, parts: seq<seq<Byte>>)
    requires |parts| == |ws| && forall i | 0 <= i < |ws| :: parts[i] == LittleEndian(ws[i], 8)
    ensures Words(ws) == Flatten(parts)
  {
    if ws != [] {
      WordsAre(ws[1..], parts[1..]);
    }
  }

  /** The header with its padding: the magic number, low byte first, the type, and zeros. */
  function HeaderBytes(msgType: Byte): seq<Byte>
  {
    [0x1C, 0xA1, msgType, 0, 0, 0, 0, 0]
  }

  lemma HeaderIs(msgType: Byte)
    ensures LittleEndian(HeaderWord(msgType), 8) == HeaderBytes(msgType)
  {
    var low: seq<Byte> := [0x1C, 0xA1, msgType];
    assert low[1..] == [0xA1, msgType] && low[1..][1..] == [msgType] && low[1..][1..][1..] == [];
    assert FromLittle(low[1..][1..]) == msgType as int;
    assert FromLittle(low[1..]) == 0xA1 + 256 * FromLittle(low[1..][1..]);
    assert FromLittle(low) == 0x1C + 256 * FromLittle(low[1..]);
    WordOfBytes(low, HeaderBytes(msgType));
  }

  /** A signed number in two's complement. */
  function Signed(i: Int64): (b: seq<Byte>)
    ensures |b| == 8
  {
    LittleEndian(i % 0x1_0000_0000_0000_0000, 8)
  }

  lemma SignedIs(i: Int64)
    ensures Signed(i) == LittleEndian(ToWord(i), 8)
  {
  }

  function OrderBytes(w: NewOrder): seq<seq<Byte>>
  {
    [HeaderBytes(1), LittleEndian(w.clOrdId, 8), LittleEndian(w.mdEventId, 8),
     [w.side, w.ordType, w.tif, 0, 0, 0, 0, 0], Signed(w.px), Signed(w.qty), Signed(w.sentAt)]
  }

  function ReportBytes(r: ExecReport): seq<seq<Byte>>
  {
    [HeaderBytes(2), LittleEndian(r.clOrdId, 8), LittleEndian(r.mdEventId, 8),
     [r.execType, 0, 0, 0, 0, 0, 0, 0], Signed(r.fillPx), Signed(r.fillQty), Signed(r.recvAt), Signed(r.sentAt),
     [0, 0, 0, 0, 0, 0, 0, 0]]
  }

  lemma OrderFieldStands(w: NewOrder, i: nat)
    requires i < 7
    ensures OrderBytes(w)[i] == LittleEndian(OrderWords(w)[i], 8)
  {
    if i == 0 {
      HeaderIs(1);
    } else if i == 3 {
      WordOfBytes([w.side, w.ordType, w.tif], [w.side, w.ordType, w.tif, 0, 0, 0, 0, 0]);
    } else if i >= 4 {
      SignedIs(w.px);
      SignedIs(w.qty);
      SignedIs(w.sentAt);
    }
  }

  /** A new order on the wire is its fields one after the other. */
  lemma OrderLayout(w: NewOrder)
    ensures EncodeOrder(w) == Flatten(OrderBytes(w))
  {
    forall i | 0 <= i < 7 ensures OrderBytes(w)[i] == LittleEndian(OrderWords(w)[i], 8) {
      OrderFieldStands(w, i);
    }
    WordsAre(OrderWords(w), OrderBytes(w));
  }

  lemma ReportFieldStands(r: ExecReport, i: nat)
    requires i < 9
    ensures ReportBytes(r)[i] == LittleEndian(ReportWords(r)[i], 8)
  {
    if i == 0 {
      HeaderIs(2);
    } else if i == 3 {
      assert [r.execType][1..] == [] && FromLittle([r.execType]) == r.execType as int + 256 * FromLittle([]);
      WordOfBytes([r.execType], [r.execType, 0, 0, 0, 0, 0, 0, 0]);
    } else if i == 8 {
      WordOfBytes([], [0, 0, 0, 0, 0, 0, 0, 0]);
    } else if i >= 4 {
      SignedIs(r.fillPx);
      SignedIs(r.fillQty);
      SignedIs(r.recvAt);
      SignedIs(r.sentAt);
    }
  }

  /** An execution report on the wire; the reason at its end is 0. */
  lemma ReportLayout(r: ExecReport)
    ensures EncodeReport(r) == Flatten(ReportBytes(r))
  {
    forall i | 0 <= i < 9 ensures ReportBytes(r)[i] == LittleEndian(ReportWords(r)[i], 8) {
      ReportFieldStands(r, i);
    }
    WordsAre(ReportWords(r), ReportBytes(r));
  }

  // ---------- What is refused ----------

  lemma LowThree(a: Byte, b: Byte, c: Byte, rest: nat, w: nat)
    requires w == a as int + 256 * (b as int + 256 * (c as int + 256 * rest))
    ensures w % 0x1_0000 == a as int + 256 * b as int && w / 0x1_0000 % 256 == c as int
  {
    assert w == a as int + 256 * b as int + 0x1_0000 * (c as int + 256 * rest);
  }

  lemma HeaderChecked(b: seq<Byte>, msgType: Byte)
    requires |b| >= 8
    ensures HasHeader(ReadWord(b, 0), msgType) <==> b[0] == 0x1C && b[1] == 0xA1 && b[2] == msgType
  {
    var w := b[0..8];
    assert w[1..][1..][1..] == b[3..8] && w[1..][1..][0] == b[2] && w[1..][0] == b[1] && w[0] == b[0];
    assert FromLittle(w) == b[0] as int + 256 * FromLittle(w[1..]);
    assert FromLittle(w[1..]) == b[1] as int + 256 * FromLittle(w[1..][1..]);
    LowThree(b[0], b[1], b[2], FromLittle(b[3..8]), ReadWord(b, 0));
  }

  /** A payload is refused exactly when it is too short or its magic number or type is not that of
      the record. */
  lemma RefusedExactly(b: seq<Byte>)
    ensures DecodeOrder(b).None? <==> |b| < 56 || !(b[0] == 0x1C && b[1] == 0xA1 && b[2] == 1)
    ensures DecodeReport(b).None? <==> |b| < 72 || !(b[0] == 0x1C && b[1] == 0xA1 && b[2] == 2)
  {
    if |b| >= 8 {
      HeaderChecked(b, 1);
      HeaderChecked(b, 2);
    }
  }
}
