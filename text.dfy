/** Turning a chunk of log bytes into lines: `std::str::from_utf8`, which accepts
    exactly the well-formed UTF-8 of RFC 3629 (section 4's byte table), and
    `str::lines`, which splits at "\n" and drops one "\r" before it. */
module Text {
  import opened Common

  /* ---- UTF-8 ---- */

  /** The UTF-8 encoding of one scalar value (section 3 of RFC 3629). */
  function Encode(c: char): seq<byte> {
    var n := c as int;
    if n < 0x80 then [n as byte]
    else if n < 0x800 then [(0xC0 + n / 64) as byte, (0x80 + n % 64) as byte]
    else if n < 0x1_0000 then
      [(0xE0 + n / 4096) as byte, (0x80 + n / 64 % 64) as byte, (0x80 + n % 64) as byte]
    else
      [(0xF0 + n / 262144) as byte, (0x80 + n / 4096 % 64) as byte,
       (0x80 + n / 64 % 64) as byte, (0x80 + n % 64) as byte]
  }

  function EncodeAll(s: string): seq<byte> {
    if |s| == 0 then [] else Encode(s[0]) + EncodeAll(s[1..])
  }

  predicate InRange(b: byte, lo: int, hi: int) {
    lo <= b as int <= hi
  }

  /** A continuation byte `10xxxxxx`. */
  predicate Cont(b: byte) {
    InRange(b, 0x80, 0xBF)
  }

  function Bits(b: byte): int {
    b as int % 64
  }

  /** The first scalar value of `b` and the number of bytes it takes, or `None` when
      `b` does not start with a well-formed sequence: no overlong forms, no surrogates,
      nothing above U+10FFFF. */
  function DecodeFirst(b: seq<byte>): Option<(char, nat)>
    requires |b| > 0
  {
    var b0 := b[0] as int;
    if b0 < 0x80 then Some((b0 as char, 1))
    else if 0xC2 <= b0 <= 0xDF then
      if |b| >= 2 && Cont(b[1]) then Some((((b0 - 0xC0) * 64 + Bits(b[1])) as char, 2)) else None
    else if 0xE0 <= b0 <= 0xEF then
      var lo := if b0 == 0xE0 then 0xA0 else 0x80;
      var hi := if b0 == 0xED then 0x9F else 0xBF;
      if |b| >= 3 && InRange(b[1], lo, hi) && Cont(b[2]) then
        Some((((b0 - 0xE0) * 4096 + Bits(b[1]) * 64 + Bits(b[2])) as char, 3))
      else None
    else if 0xF0 <= b0 <= 0xF4 then
      var lo := if b0 == 0xF0 then 0x90 else 0x80;
      var hi := if b0 == 0xF4 then 0x8F else 0xBF;
      if |b| >= 4 && InRange(b[1], lo, hi) && Cont(b[2]) && Cont(b[3]) then
        Some((((b0 - 0xF0) * 262144 + Bits(b[1]) * 4096 + Bits(b[2]) * 64 + Bits(b[3])) as char, 4))
      else None
    else None
  }

  /** `std::str::from_utf8`: the decoded text, or `None` for ill-formed input. */
  function Decode(b: seq<byte>): Option<string>
    decreases |b|
  {
    if |b| == 0 then Some([])
    else
      var (c, k) :- DecodeFirst(b);
      var rest :- Decode(b[k..]);
      Some([c] + rest)
  }

  /** Base-64 digits of a value below 2^24 and the value they make up. */
  lemma Join64(x: int, y: int, z: int, w: int)
    requires 0 <= x < 64 && 0 <= y < 64 && 0 <= z < 64 && 0 <= w < 64
    ensures var n := x * 262144 + y * 4096 + z * 64 + w;
      n / 262144 == x && n / 4096 % 64 == y && n / 64 % 64 == z && n % 64 == w
  {
    var n := x * 262144 + y * 4096 + z * 64 + w;
    assert n % 64 == w;
    assert n / 64 == x * 4096 + y * 64 + z;
    assert n / 4096 == x * 64 + y;
    assert n / 262144 == x;
  }

  /** The same for a value below 2^18 written with three digits. */
  lemma Join64Three(x: int, y: int, z: int)
    requires 0 <= x < 64 && 0 <= y < 64 && 0 <= z < 64
    ensures var n := x * 4096 + y * 64 + z;
      n / 4096 == x && n / 64 % 64 == y && n % 64 == z
  {
    var n := x * 4096 + y * 64 + z;
    assert n % 64 == z;
    assert n / 64 == x * 64 + y;
    assert n / 4096 == x;
  }

  lemma Split64(n: int)
    requires 0 <= n < 0x100_0000
    ensures n == n / 262144 * 262144 + n / 4096 % 64 * 4096 + n / 64 % 64 * 64 + n % 64
  {
    var q := n / 64;
    assert n == q * 64 + n % 64;
    assert q == q / 64 * 64 + q % 64;
    assert q / 64 == n / 4096;
    var r := q / 64;
    assert r == r / 64 * 64 + r % 64;
    assert r / 64 == n / 262144;
  }

  lemma EncodeDecodeTwo(n: int, e: seq<byte>)
    requires 0x80 <= n < 0x800 && |e| >= 2
    requires e[0] as int == 0xC0 + n / 64 && e[1] as int == 0x80 + n % 64
    ensures DecodeFirst(e) == Some((n as char, 2))
  {
  }

  lemma EncodeDecodeThree(n: int, e: seq<byte>)
    requires 0x800 <= n < 0x1_0000 && !(0xD800 <= n < 0xE000) && |e| >= 3
    requires e[0] as int == 0xE0 + n / 4096 && e[1] as int == 0x80 + n / 64 % 64 && e[2] as int == 0x80 + n % 64
    ensures DecodeFirst(e) == Some((n as char, 3))
  {
  }

  lemma EncodeDecodeFour(n: int, e: seq<byte>)
    requires 0x1_0000 <= n < 0x11_0000 && |e| >= 4
    requires e[0] as int == 0xF0 + n / 262144 && e[1] as int == 0x80 + n / 4096 % 64
    requires e[2] as int == 0x80 + n / 64 % 64 && e[3] as int == 0x80 + n % 64
    ensures DecodeFirst(e) == Some((n as char, 4))
  {
    Split64(n);
    assert Bits(e[1]) == n / 4096 % 64 && Bits(e[2]) == n / 64 % 64 && Bits(e[3]) == n % 64;
  }

  lemma EncodeDecodeFirst(c: char, rest: seq<byte>)
    ensures DecodeFirst(Encode(c) + rest) == Some((c, |Encode(c)|))
  {
    var n := c as int;
    var e := Encode(c) + rest;
    if n < 0x80 {
    } else if n < 0x800 {
      EncodeDecodeTwo(n, e);
    } else if n < 0x1_0000 {
      EncodeDecodeThree(n, e);
    } else {
      EncodeDecodeFour(n, e);
    }
  }

  lemma DecodeTwo(b: seq<byte>)
    requires |b| >= 2 && 0xC2 <= b[0] as int <= 0xDF && Cont(b[1])
    ensures var n := (b[0] as int - 0xC0) * 64 + Bits(b[1]);
      0x80 <= n < 0x800 && b[0] as int == 0xC0 + n / 64 && b[1] as int == 0x80 + n % 64
  {
  }

  lemma DecodeThree(b: seq<byte>, lo: int, hi: int)
    requires |b| >= 3 && 0xE0 <= b[0] as int <= 0xEF && InRange(b[1], lo, hi) && Cont(b[2])
    requires lo == (if b[0] == 0xE0 then 0xA0 else 0x80) && hi == (if b[0] == 0xED then 0x9F else 0xBF)
    ensures var n := (b[0] as int - 0xE0) * 4096 + Bits(b[1]) * 64 + Bits(b[2]);
      0x800 <= n < 0x1_0000 && !(0xD800 <= n < 0xE000)
      && b[0] as int == 0xE0 + n / 4096 && b[1] as int == 0x80 + n / 64 % 64 && b[2] as int == 0x80 + n % 64
  {
    assert Bits(b[1]) == b[1] as int - 0x80 && Bits(b[2]) == b[2] as int - 0x80;
    Join64Three(b[0] as int - 0xE0, Bits(b[1]), Bits(b[2]));
  }

  lemma DecodeFour(b: seq<byte>, lo: int, hi: int)
    requires |b| >= 4 && 0xF0 <= b[0] as int <= 0xF4 && InRange(b[1], lo, hi) && Cont(b[2]) && Cont(b[3])
    requires lo == (if b[0] == 0xF0 then 0x90 else 0x80) && hi == (if b[0] == 0xF4 then 0x8F else 0xBF)
    ensures var n := (b[0] as int - 0xF0) * 262144 + Bits(b[1]) * 4096 + Bits(b[2]) * 64 + Bits(b[3]);
      0x1_0000 <= n < 0x11_0000
      && b[0] as int == 0xF0 + n / 262144 && b[1] as int == 0x80 + n / 4096 % 64
      && b[2] as int == 0x80 + n / 64 % 64 && b[3] as int == 0x80 + n % 64
  {
    Join64(b[0] as int - 0xF0, Bits(b[1]), Bits(b[2]), Bits(b[3]));
  }

  lemma DecodeFirstEncode(b: seq<byte>)
    requires |b| > 0 && DecodeFirst(b).Some?
    ensures var (c, k) := DecodeFirst(b).value; k <= |b| && b[..k] == Encode(c)
  {
    var b0 := b[0] as int;
    if 0xC2 <= b0 <= 0xDF {
      DecodeTwo(b);
      assert b[..2] == [b[0], b[1]];
    } else if 0xE0 <= b0 <= 0xEF {
      DecodeThree(b, if b0 == 0xE0 then 0xA0 else 0x80, if b0 == 0xED then 0x9F else 0xBF);
      assert b[..3] == [b[0], b[1], b[2]];
    } else if 0xF0 <= b0 <= 0xF4 {
      DecodeFour(b, if b0 == 0xF0 then 0x90 else 0x80, if b0 == 0xF4 then 0x8F else 0xBF);
      assert b[..4] == [b[0], b[1], b[2], b[3]];
    }
  }

  /** A decodable sequence is its first scalar value followed by a decodable rest. */
  lemma DecodeCons(b: seq<byte>)
    requires |b| > 0 && Decode(b).Some?
    ensures DecodeFirst(b).Some? && DecodeFirst(b).value.1 <= |b|
    ensures var (c, k) := DecodeFirst(b).value;
      Decode(b[k..]).Some? && Decode(b).value == [c] + Decode(b[k..]).value
  {
  }

  /** Decoding the encoding of any text gives the text back. */
  lemma {:induction false} DecodeEncode(s: string)
    ensures Decode(EncodeAll(s)) == Some(s)
  {
    if |s| > 0 {
      var b := EncodeAll(s);
      EncodeDecodeFirst(s[0], EncodeAll(s[1..]));
      assert b[|Encode(s[0])|..] == EncodeAll(s[1..]);
      DecodeEncode(s[1..]);
      assert [s[0]] + s[1..] == s;
    }
  }

  /** Whatever `from_utf8` accepts is the encoding of the text it returns, so a chunk
      is accepted exactly when it encodes some text. */
  lemma {:induction false} EncodeDecode(b: seq<byte>)
    requires Decode(b).Some?
    ensures EncodeAll(Decode(b).value) == b
    decreases |b|
  {
    if |b| > 0 {
      DecodeCons(b);
      var (c, k) := DecodeFirst(b).value;
      DecodeFirstEncode(b);
      EncodeDecode(b[k..]);
      var s := Decode(b).value;
      assert s[0] == c && s[1..] == Decode(b[k..]).value;
      assert EncodeAll(s) == Encode(c) + EncodeAll(Decode(b[k..]).value);
      assert b == b[..k] + b[k..];
    }
  }

  /* ---- Lines ---- */

  /** Index of the first '\n' in `t`, or `|t|` when there is none. */
  function NewlineAt(t: string): (i: nat)
    ensures i <= |t| && (i < |t| ==> t[i] == '\n')
    ensures forall j :: 0 <= j < i ==> t[j] != '\n'
  {
    if |t| == 0 || t[0] == '\n' then 0 else 1 + NewlineAt(t[1..])
  }

  /** A line as `lines` yields it: a "\r" right before the "\n" is dropped. */
  function StripReturn(line: string): string {
    if |line| > 0 && line[|line| - 1] == '\r' then line[..|line| - 1] else line
  }

  /** `str::lines`: split after every "\n"; a last line without "\n" is kept, and no
      empty line is yielded after a final "\n". */
  function Lines(t: string): seq<string>
    decreases |t|
  {
    if |t| == 0 then []
    else
      var i := NewlineAt(t);
      if i == |t| then [t]
      else [StripReturn(t[..i])] + Lines(t[i + 1..])
  }

  predicate NoNewline(l: string) {
    forall j :: 0 <= j < |l| ==> l[j] != '\n'
  }

  /** Lines joined, each followed by "\n". */
  function Terminated(ls: seq<string>): string {
    if |ls| == 0 then "" else ls[0] + "\n" + Terminated(ls[1..])
  }

  /** No yielded line contains a line break. */
  lemma {:induction false} LinesHaveNoNewline(t: string)
    ensures forall l :: l in Lines(t) ==> NoNewline(l)
    decreases |t|
  {
    if |t| > 0 {
      var i := NewlineAt(t);
      if i < |t| {
        LinesHaveNoNewline(t[i + 1..]);
      }
    }
  }

  lemma NewlineAtLine(l: string, rest: string)
    requires NoNewline(l)
    ensures NewlineAt(l + "\n" + rest) == |l|
  {
    var t := l + "\n" + rest;
    assert t[|l|] == '\n';
    assert forall j :: 0 <= j < |l| ==> t[j] == l[j];
  }

  /** Splitting newline-terminated lines gives them back, when none holds a line break
      or ends with a carriage return. */
  lemma {:induction false} LinesRoundTrip(ls: seq<string>)
    requires forall l :: l in ls ==> NoNewline(l) && (|l| > 0 ==> l[|l| - 1] != '\r')
    ensures Lines(Terminated(ls)) == ls
  {
    if |ls| > 0 {
      var t := Terminated(ls);
      assert ls[0] in ls;
      NewlineAtLine(ls[0], Terminated(ls[1..]));
      assert t[..|ls[0]|] == ls[0];
      assert t[|ls[0]| + 1..] == Terminated(ls[1..]);
      assert forall l :: l in ls[1..] ==> l in ls;
      LinesRoundTrip(ls[1..]);
      assert [ls[0]] + ls[1..] == ls;
    }
  }

  /** A Windows line ending "\r\n" yields the same line as "\n". */
  lemma CarriageReturnDropped(l: string, rest: string)
    requires NoNewline(l)
    ensures Lines(l + "\r\n" + rest) == [l] + Lines(rest)
  {
    var t := l + "\r\n" + rest;
    NewlineAtLine(l + "\r", rest);
    assert l + "\r\n" + rest == (l + "\r") + "\n" + rest;
    assert t[..|l| + 1] == l + "\r";
    assert t[|l| + 2..] == rest;
  }
}
