/** 32-bit words and their four bytes, least significant first, as the message base
    files hold them.  A file is a string; each char stands for one byte. */
module LittleEndian {
  const WORD: int := 0x1_0000_0000

  /** A C `unsigned int`. */
  type U32 = x: int | 0 <= x < WORD

  /** Assignment of a wider value to an `unsigned int`. */
  function ToU32(x: int): U32 {
    x % WORD
  }

  function WordBytes(w: U32): (b: string)
    ensures |b| == 4
  {
    [(w % 0x100) as char, (w / 0x100 % 0x100) as char, (w / 0x10000 % 0x100) as char, (w / 0x1000000) as char]
  }

  function BytesWord(b: string): U32
    requires |b| == 4
  {
    (b[0] as int % 0x100) + 0x100 * (b[1] as int % 0x100)
    + 0x10000 * (b[2] as int % 0x100) + 0x1000000 * (b[3] as int % 0x100)
  }

  lemma WordRoundTrip(w: U32)
    ensures BytesWord(WordBytes(w)) == w
  {
    BytesOfWord(w);
    var b := WordBytes(w);
    assert b[1] as int < 0x100 && b[2] as int < 0x100 && b[3] as int < 0x100;
    hide WordBytes;
  }

  /** Dividing by 0x100 again and again. */
  lemma ByteQuotients(w: U32)
    ensures w / 0x10000 == w / 0x100 / 0x100 && w / 0x1000000 == w / 0x10000 / 0x100
  {
  }

  /** The least significant byte comes first: what a file holds for a word. */
  lemma BytesOfWord(w: U32)
    ensures var b := WordBytes(w);
            && b[0] as int == w % 0x100 && b[3] as int == w / 0x1000000
            && w == b[0] as int + 0x100 * (b[1] as int) + 0x10000 * (b[2] as int) + 0x1000000 * (b[3] as int)
  {
    ByteQuotients(w);
    var a, c, d := w / 0x100, w / 0x10000, w / 0x1000000;
    assert w == 0x100 * a + w % 0x100 && a == 0x100 * c + a % 0x100 && c == 0x100 * d + c % 0x100;
  }

  function WordsBytes(ws: seq<U32>): (b: string)
    ensures |b| == 4 * |ws|
  {
    if ws == [] then [] else WordBytes(ws[0]) + WordsBytes(ws[1..])
  }

  function BytesWords(b: string, n: nat): (ws: seq<U32>)
    requires |b| == 4 * n
    ensures |ws| == n
  {
    if n == 0 then [] else [BytesWord(b[..4])] + BytesWords(b[4..], n - 1)
  }

  lemma {:induction false} WordsRoundTrip(ws: seq<U32>)
    ensures BytesWords(WordsBytes(ws), |ws|) == ws
  {
    if ws != [] {
      var head, tail := WordBytes(ws[0]), WordsBytes(ws[1..]);
      assert (head + tail)[..4] == head && (head + tail)[4..] == tail;
      WordRoundTrip(ws[0]);
      WordsRoundTrip(ws[1..]);
    }
  }

  /** The 32 bits of a word, least significant first. */
  type Bits32 = b: seq<bool> | |b| == 32 witness seq(32, _ => false)

  function NoBits(): Bits32 {
    seq(32, _ => false)
  }

  function Pow2(n: nat): (p: nat)
    ensures p >= 1
  {
    if n == 0 then 1 else 2 * Pow2(n - 1)
  }

  function BitsValue(b: seq<bool>): (v: nat)
    ensures v < Pow2(|b|)
  {
    if b == [] then 0 else (if b[0] then 1 else 0) + 2 * BitsValue(b[1..])
  }

  function ValueBits(v: nat, n: nat): (b: seq<bool>)
    ensures |b| == n
  {
    if n == 0 then [] else [v % 2 == 1] + ValueBits(v / 2, n - 1)
  }

  lemma {:induction false} BitsRoundTrip(b: seq<bool>)
    ensures ValueBits(BitsValue(b), |b|) == b
  {
    if b != [] {
      BitsRoundTrip(b[1..]);
    }
  }

  lemma WordIsPow2()
    ensures Pow2(32) == WORD
  {
    assert Pow2(8) == 0x100;
    assert Pow2(16) == 0x10000;
    assert Pow2(24) == 0x1000000;
  }

  function BitsWord(b: Bits32): U32 {
    WordIsPow2();
    BitsValue(b)
  }

  function WordBits(w: U32): Bits32 {
    ValueBits(w, 32)
  }

  lemma {:induction false} WordsAt(ws: seq<U32>, k: nat)
    requires k < |ws|
    ensures WordsBytes(ws)[4 * k..4 * k + 4] == WordBytes(ws[k])
  {
    var head, tail := WordBytes(ws[0]), WordsBytes(ws[1..]);
    if k > 0 {
      WordsAt(ws[1..], k - 1);
      assert (head + tail)[4 * k..4 * k + 4] == tail[4 * (k - 1)..4 * (k - 1) + 4];
    }
  }

  /** Bit k of the word is bit k of the list. */
  lemma {:induction false} BitOfValue(b: seq<bool>, k: nat)
    requires k < |b|
    ensures BitsValue(b) / Pow2(k) % 2 == 1 <==> b[k]
  {
    hide BitsValue, Pow2;
    FirstBit(b);
    PowerOf(k);
    if k > 0 {
      BitOfValue(b[1..], k - 1);
      HalfTwice(BitsValue(b), Pow2(k - 1));
    }
  }

  lemma PowerOf(k: nat)
    ensures Pow2(k) == if k == 0 then 1 else 2 * Pow2(k - 1)
  {
  }

  lemma Unfolded(b: seq<bool>)
    requires b != []
    ensures BitsValue(b) == (if b[0] then 1 else 0) + 2 * BitsValue(b[1..])
  {
    hide Pow2;
  }

  lemma FirstBit(b: seq<bool>)
    requires b != []
    ensures BitsValue(b) % 2 == (if b[0] then 1 else 0) && BitsValue(b) / 2 == BitsValue(b[1..])
  {
    hide BitsValue, Pow2;
    Unfolded(b);
    Halves(if b[0] then 1 else 0, BitsValue(b[1..]));
  }

  lemma Halves(bit: nat, t: nat)
    requires bit <= 1
    ensures (bit + 2 * t) % 2 == bit && (bit + 2 * t) / 2 == t
  {
  }

  lemma HalfTwice(v: nat, p: nat)
    requires p > 0
    ensures v / (2 * p) == v / 2 / p
  {
    var q, r := v / 2 / p, v / 2 % p;
    assert v / 2 == p * q + r;
    assert v == 2 * (p * q + r) + v % 2;
    Regroup(p, q);
    Quotient(v, 2 * p, q, 2 * r + v % 2);
  }

  lemma Regroup(p: nat, q: nat)
    ensures 2 * (p * q) == (2 * p) * q
  {
  }

  lemma AtLeastOnce(x: nat, d: nat)
    requires x >= 1
    ensures d * x >= d
  {
    assert d * x == d * (x - 1) + d;
  }

  lemma Spread(d: nat, x: nat, y: nat)
    ensures d * (x - y) == d * x - d * y
  {
  }

  lemma Quotient(v: nat, d: nat, q: nat, r: nat)
    requires d > 0 && v == d * q + r && r < d
    ensures v / d == q
  {
    var q', r' := v / d, v % d;
    assert v == d * q' + r' && 0 <= r' < d;
    if q > q' {
      AtLeastOnce(q - q', d);
      Spread(d, q, q');
    } else if q < q' {
      AtLeastOnce(q' - q, d);
      Spread(d, q', q);
    }
  }
}
