/** The UTF-8 form of a character (section 3 of RFC 3629) and the byte pieces both encoders fall back to. */
module Utf8 {
  import opened Scripts

  function Bytes(c: char): (bytes: seq<nat>)
    ensures 1 <= |bytes| <= 4 && forall i :: 0 <= i < |bytes| ==> bytes[i] < 256
  {
    var n := c as int;
    if n < 0x80 then [n]
    else if n < 0x800 then [0xC0 + n / 64, 0x80 + n % 64]
    else if n < 0x1_0000 then [0xE0 + n / 4096, 0x80 + n / 64 % 64, 0x80 + n % 64]
    else [0xF0 + n / 262144, 0x80 + n / 4096 % 64, 0x80 + n / 64 % 64, 0x80 + n % 64]
  }

  /** The code point a sequence of bytes stands for, when it has the shape its first byte announces. */
  function Decode(bytes: seq<nat>): int {
    if |bytes| == 1 && bytes[0] < 0x80 then bytes[0]
    else if |bytes| == 2 && 0xC0 <= bytes[0] < 0xE0 then (bytes[0] - 0xC0) * 64 + Tail(bytes[1])
    else if |bytes| == 3 && 0xE0 <= bytes[0] < 0xF0 then
      (bytes[0] - 0xE0) * 4096 + Tail(bytes[1]) * 64 + Tail(bytes[2])
    else if |bytes| == 4 && 0xF0 <= bytes[0] < 0xF8 then
      (bytes[0] - 0xF0) * 262144 + Tail(bytes[1]) * 4096 + Tail(bytes[2]) * 64 + Tail(bytes[3])
    else -1
  }

  /** The six bits of a continuation byte. */
  function Tail(byte: nat): int {
    if 0x80 <= byte < 0xC0 then byte - 0x80 else -0x1_0000_0000
  }

  lemma SixBits(n: nat)
    ensures n == n / 64 * 64 + n % 64 && n / 64 == n / 4096 * 64 + n / 64 % 64
    ensures n / 4096 == n / 262144 * 64 + n / 4096 % 64
  {
  }

  /** Every character can be read back from its bytes, so different characters have different ones. */
  lemma BytesDecode(c: char)
    ensures Decode(Bytes(c)) == c as int
  {
    SixBits(c as int);
  }

  /** What sequences of each length can stand for. */
  lemma DecodeBounds(bytes: seq<nat>)
    ensures |bytes| == 1 ==> Decode(bytes) < 0x80
    ensures |bytes| == 2 ==> Decode(bytes) < 0x800
    ensures |bytes| == 3 ==> Decode(bytes) < 0x1_0000
    ensures !(1 <= |bytes| <= 4) ==> Decode(bytes) < 0
  {
  }

  lemma BytesLength(c: char)
    ensures |Bytes(c)| == if c as int < 0x80 then 1 else if c as int < 0x800 then 2 else if c as int < 0x1_0000 then 3 else 4
  {
  }

  /** Both have a byte at `k`, the first one where they differ, and the first sequence has the smaller one. */
  predicate PartsAt(a: seq<nat>, b: seq<nat>, k: nat) {
    k < |a| && k < |b| && a[k] < b[k] && forall i :: 0 <= i < k ==> a[i] == b[i]
  }

  /** The first place where two sequences of one length differ. */
  function Parting(a: seq<nat>, b: seq<nat>, from: nat): (k: nat)
    requires |a| == |b| && from <= |a|
    ensures from <= k <= |a| && forall i :: from <= i < k ==> a[i] == b[i]
    ensures k < |a| ==> a[k] != b[k]
    decreases |a| - from
  {
    if from == |a| || a[from] != b[from] then from else Parting(a, b, from + 1)
  }

  /** Sequences of one length stand for code points in their own order. */
  lemma DecodeGrows(a: seq<nat>, b: seq<nat>, k: nat)
    requires |a| == |b| && 0 <= Decode(a) && 0 <= Decode(b) && PartsAt(a, b, k)
    ensures Decode(a) < Decode(b)
  {
    if k == 0 {
    } else if k == 1 {
      assert a[0] == b[0];
    } else {
      assert a[0] == b[0] && a[1] == b[1];
    }
  }

  lemma DecodeOrders(a: seq<nat>, b: seq<nat>)
    requires |a| == |b| && 0 <= Decode(a) && 0 <= Decode(b)
    ensures Decode(a) < Decode(b) ==> PartsAt(a, b, Parting(a, b, 0))
    ensures Decode(a) == Decode(b) ==> a == b
  {
    hide Decode;
    var k := Parting(a, b, 0);
    if k == |a| {
      assert a == b;
    } else if a[k] < b[k] {
      DecodeGrows(a, b, k);
    } else {
      DecodeGrows(b, a, k);
    }
  }

  /** No shorter sequence stands for the character, and no other one of the same length. */
  lemma BytesAreShortest(c: char, bytes: seq<nat>)
    requires Decode(bytes) == c as int
    ensures |Bytes(c)| <= |bytes| && (|bytes| == |Bytes(c)| ==> bytes == Bytes(c))
  {
    DecodeBounds(bytes);
    BytesLength(c);
    BytesDecode(c);
    hide Bytes, Decode;
    if |bytes| == |Bytes(c)| {
      DecodeOrders(bytes, Bytes(c));
    }
  }

  /** The UTF-8 form of a text. */
  function Encoded(s: string): (bytes: seq<nat>) {
    if s == "" then [] else Bytes(s[0]) + Encoded(s[1..])
  }

  /** How many bytes a first byte announces. */
  function Announced(byte: nat): nat {
    if byte < 0x80 then 1 else if byte < 0xE0 then 2 else if byte < 0xF0 then 3 else 4
  }

  /** The code points of a sequence of bytes, read one by one. */
  function DecodeAll(bytes: seq<nat>): seq<int> {
    if bytes == [] then []
    else if Announced(bytes[0]) > |bytes| then [-1]
    else [Decode(bytes[..Announced(bytes[0])])] + DecodeAll(bytes[Announced(bytes[0])..])
  }

  lemma BytesAnnounce(c: char)
    ensures Announced(Bytes(c)[0]) == |Bytes(c)|
  {
  }

  /** A text can be read back from its bytes. */
  lemma {:induction false} TextDecodes(s: string)
    ensures DecodeAll(Encoded(s)) == seq(|s|, i requires 0 <= i < |s| => s[i] as int)
  {
    hide Bytes, Decode, Announced;
    if s != "" {
      BytesAnnounce(s[0]);
      BytesDecode(s[0]);
      TextDecodes(s[1..]);
      assert Encoded(s)[..|Bytes(s[0])|] == Bytes(s[0]) && Encoded(s)[|Bytes(s[0])|..] == Encoded(s[1..]);
    }
  }

  lemma {:induction false} EncodedJoins(a: string, b: string)
    ensures Encoded(a + b) == Encoded(a) + Encoded(b)
  {
    hide Bytes;
    if a == "" {
      assert a + b == b;
    } else {
      assert (a + b)[1..] == a[1..] + b && (a + b)[0] == a[0];
      assert Encoded(a + b) == Bytes(a[0]) + Encoded(a[1..] + b);
      assert Encoded(a) == Bytes(a[0]) + Encoded(a[1..]);
      hide Encoded;
      EncodedJoins(a[1..], b);
      Regroup(Bytes(a[0]), Encoded(a[1..]), Encoded(b));
    }
  }

  lemma Regroup(a: seq<nat>, b: seq<nat>, c: seq<nat>)
    ensures a + b + c == a + (b + c)
  {
  }

  // ---------------------------------------------------------------- the order of texts

  predicate BytesBefore(a: seq<nat>, b: seq<nat>) {
    b != [] && (a == [] || a[0] < b[0] || (a[0] == b[0] && BytesBefore(a[1..], b[1..])))
  }

  lemma BytesPart(c: char, d: char) returns (k: nat)
    requires c < d
    ensures PartsAt(Bytes(c), Bytes(d), k)
  {
    BytesLength(c);
    BytesLength(d);
    if |Bytes(c)| == |Bytes(d)| {
      BytesDecode(c);
      BytesDecode(d);
      hide Bytes, Decode;
      k := Parting(Bytes(c), Bytes(d), 0);
      DecodeOrders(Bytes(c), Bytes(d));
    } else {
      k := 0;
      BytesAnnounce(c);
      BytesAnnounce(d);
    }
  }

  lemma {:induction false} PartsDecide(a: seq<nat>, b: seq<nat>, k: nat, x: seq<nat>, y: seq<nat>)
    requires PartsAt(a, b, k)
    ensures BytesBefore(a + x, b + y) && !BytesBefore(b + y, a + x)
  {
    if k > 0 {
      PartsDecide(a[1..], b[1..], k - 1, x, y);
      assert (a + x)[1..] == a[1..] + x && (b + y)[1..] == b[1..] + y;
    }
  }

  lemma {:induction false} SamePrefix(p: seq<nat>, a: seq<nat>, b: seq<nat>)
    ensures BytesBefore(p + a, p + b) <==> BytesBefore(a, b)
  {
    if p == [] {
      assert p + a == a && p + b == b;
    } else {
      SamePrefix(p[1..], a, b);
      assert (p + a)[1..] == p[1..] + a && (p + b)[1..] == p[1..] + b;
    }
  }

  const HEX: string := "0123456789ABCDEF"

  function BytePiece(byte: nat): string
    requires byte < 256
  {
    "<0x" + [HEX[byte / 16], HEX[byte % 16]] + ">"
  }

  /** The byte a piece spells. */
  lemma BytePieceIsHex(a: nat, b: nat)
    requires a < 256 && b < 256
    ensures BytePiece(a) == BytePiece(b) <==> a == b
  {
    assert forall i, j :: 0 <= i < j < 16 ==> HEX[i] != HEX[j];
    assert BytePiece(a)[3] == HEX[a / 16] && BytePiece(a)[4] == HEX[a % 16];
    assert BytePiece(b)[3] == HEX[b / 16] && BytePiece(b)[4] == HEX[b % 16];
  }

  function HexValue(c: char): int {
    if '0' <= c <= '9' then c as int - '0' as int
    else if 'A' <= c <= 'F' then c as int - 'A' as int + 10
    else -1
  }

  /** A byte piece is the byte in two upper-case hexadecimal digits. */
  lemma BytePieceReads(byte: nat)
    requires byte < 256
    ensures var piece := BytePiece(byte);
      |piece| == 6 && piece[..3] == "<0x" && piece[5] == '>' &&
      0 <= HexValue(piece[3]) && 0 <= HexValue(piece[4]) && 16 * HexValue(piece[3]) + HexValue(piece[4]) == byte
  {
    assert forall i :: 0 <= i < 16 ==> HexValue(HEX[i]) == i;
  }

  function BytePieces(bytes: seq<nat>): (pieces: seq<string>)
    requires forall i :: 0 <= i < |bytes| ==> bytes[i] < 256
    ensures |pieces| == |bytes| && forall i :: 0 <= i < |bytes| ==> pieces[i] == BytePiece(bytes[i])
  {
    if bytes == [] then [] else BytePieces(bytes[..|bytes| - 1]) + [BytePiece(bytes[|bytes| - 1])]
  }

  /** Byte pieces are written in ASCII, so no trim drops one. */
  lemma BytePieceKeeps(byte: nat)
    requires byte < 256
    ensures Keeps(BytePiece(byte))
  {
    assert KEEP_RANGES[0] == (0x0021, 0x007E);
    var piece := BytePiece(byte);
    assert forall i :: 0 <= i < |HEX| ==> 0x21 <= HEX[i] as int <= 0x7E;
    forall i | 0 <= i < |piece| ensures KeptChar(piece[i]) {
      assert KEEP_RANGES[0].0 <= piece[i] as int <= KEEP_RANGES[0].1;
    }
  }
}
