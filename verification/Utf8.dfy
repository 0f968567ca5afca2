/** UTF-8 as Rust's strings have it: which bytes are text, and what `from_utf8_lossy` makes of
    those that are not. */
module Utf8 {
  import opened Protocol

  predicate In(s: Bytes, i: nat, low: nat, high: nat) {
    i < |s| && low <= s[i] <= high
  }

  predicate Tail(s: Bytes, i: nat) {
    In(s, i, 0x80, 0xBF)
  }

  /** What may follow the first byte of a sequence of three or four. */
  predicate Second(s: Bytes)
    requires s != []
  {
    if s[0] == 0xE0 then In(s, 1, 0xA0, 0xBF)
    else if s[0] == 0xED then In(s, 1, 0x80, 0x9F)
    else if s[0] == 0xF0 then In(s, 1, 0x90, 0xBF)
    else if s[0] == 0xF4 then In(s, 1, 0x80, 0x8F)
    else Tail(s, 1)
  }

  /** The bytes of the first character, if it is well formed; otherwise the longest start of
      a well-formed one, at least one byte. */
  function First(s: Bytes): (r: (nat, bool))
    requires s != []
    ensures 1 <= r.0 <= |s|
  {
    if s[0] < 0x80 then (1, true)
    else if 0xC2 <= s[0] <= 0xDF then
      if Tail(s, 1) then (2, true) else (1, false)
    else if 0xE0 <= s[0] <= 0xEF then
      if !Second(s) then (1, false) else if !Tail(s, 2) then (2, false) else (3, true)
    else if 0xF0 <= s[0] <= 0xF4 then
      if !Second(s) then (1, false)
      else if !Tail(s, 2) then (2, false)
      else if !Tail(s, 3) then (3, false)
      else (4, true)
    else (1, false)
  }

  predicate Valid(s: Bytes)
    decreases |s|
  {
    s != [] ==> First(s).1 && Valid(s[First(s).0..])
  }

  type Text = s: Bytes | Valid(s) witness []

  /** U+FFFD */
  const REPLACEMENT: Bytes := [0xEF, 0xBF, 0xBD]

  /** `from_utf8_lossy`: each ill-formed part becomes one replacement character. */
  function Lossy(s: Bytes): Bytes
    decreases |s|
  {
    if s == [] then []
    else
      var (n, ok) := First(s);
      (if ok then s[..n] else REPLACEMENT) + Lossy(s[n..])
  }

  /** A well-formed character is one whatever follows it. */
  lemma {:induction false} FirstAlone(s: Bytes, rest: Bytes)
    requires s != [] && First(s) == (|s|, true)
    ensures First(s + rest) == (|s|, true)
  {
  }

  lemma {:induction false} ValidCons(character: Bytes, rest: Bytes)
    requires character != [] && First(character) == (|character|, true) && Valid(rest)
    ensures Valid(character + rest)
  {
    FirstAlone(character, rest);
    assert (character + rest)[|character|..] == rest;
  }

  /** The result is always text, and text is left as it is; nothing else is. */
  lemma {:induction false} LossyMeans(s: Bytes)
    ensures Valid(Lossy(s))
    ensures Lossy(s) == s <==> Valid(s)
    decreases |s|
  {
    if s != [] {
      var (n, ok) := First(s);
      LossyMeans(s[n..]);
      if ok {
        FirstOfPrefix(s);
        ValidCons(s[..n], Lossy(s[n..]));
        assert s[..n] + s[n..] == s;
        assert (s[..n] + Lossy(s[n..]))[n..] == Lossy(s[n..]);
      } else {
        ValidCons(REPLACEMENT, Lossy(s[n..]));
      }
    }
  }

  lemma {:induction false} FirstOfPrefix(s: Bytes)
    requires s != [] && First(s).1
    ensures First(s[..First(s).0]) == First(s)
  {
  }

  // ----- What the bytes stand for -----

  predicate IsScalar(c: nat) {
    c < 0xD800 || 0xE000 <= c < 0x11_0000
  }

  /** The bytes of a character: six bits in each byte but the first (RFC 3629 section 3). */
  function EncodeScalar(c: nat): (s: Bytes)
    requires IsScalar(c)
    ensures s != []
  {
    if c < 0x80 then [c]
    else if c < 0x800 then [0xC0 + c / 64, 0x80 + c % 64]
    else if c < 0x1_0000 then [0xE0 + c / 4096, 0x80 + c / 64 % 64, 0x80 + c % 64]
    else [0xF0 + c / 26_2144, 0x80 + c / 4096 % 64, 0x80 + c / 64 % 64, 0x80 + c % 64]
  }

  lemma {:induction false} ScalarIsFirst(c: nat, rest: Bytes)
    requires IsScalar(c)
    ensures First(EncodeScalar(c) + rest) == (|EncodeScalar(c)|, true)
    ensures First(EncodeScalar(c)) == (|EncodeScalar(c)|, true)
  {
    assert EncodeScalar(c) + [] == EncodeScalar(c);
  }

  lemma {:induction false} ScalarIsFound(s: Bytes, c: nat)
    requires IsScalar(c) && EncodeScalar(c) <= s
    ensures s != [] && First(s) == (|EncodeScalar(c)|, true)
  {
    ScalarIsFirst(c, s[|EncodeScalar(c)|..]);
    assert EncodeScalar(c) + s[|EncodeScalar(c)|..] == s;
  }

  /** The bits a byte carries after its marker. */
  function Bits(b: Byte, marker: Byte): nat
    requires marker <= b
  {
    b - marker
  }

  lemma {:induction false} Places(a: nat, b: nat, c: nat, d: nat)
    requires b < 64 && c < 64 && d < 64
    ensures var n := a * 26_2144 + b * 4096 + c * 64 + d;
            n / 26_2144 == a && n / 4096 % 64 == b && n / 64 % 64 == c && n % 64 == d
    ensures var n := b * 4096 + c * 64 + d;
            n / 4096 == b && n / 64 % 64 == c && n % 64 == d
    ensures (c * 64 + d) / 64 == c && (c * 64 + d) % 64 == d
  {
    var n := a * 26_2144 + b * 4096 + c * 64 + d;
    assert n / 64 == a * 4096 + b * 64 + c;
    assert n / 4096 == a * 64 + b;
  }

  lemma {:induction false} FirstIsScalar(s: Bytes) returns (c: nat)
    requires s != [] && First(s).1
    ensures IsScalar(c) && EncodeScalar(c) == s[..First(s).0]
  {
    match First(s).0 {
      case 1 =>
        c := s[0];
      case 2 =>
        var lead, last := Bits(s[0], 0xC0), Bits(s[1], 0x80);
        c := lead * 64 + last;
        Places(0, 0, lead, last);
      case 3 =>
        var lead, mid, last := Bits(s[0], 0xE0), Bits(s[1], 0x80), Bits(s[2], 0x80);
        c := lead * 4096 + mid * 64 + last;
        Places(0, lead, mid, last);
      case _ =>
        var lead, high, mid, last := Bits(s[0], 0xF0), Bits(s[1], 0x80), Bits(s[2], 0x80), Bits(s[3], 0x80);
        c := lead * 26_2144 + high * 4096 + mid * 64 + last;
        Places(lead, high, mid, last);
    }
  }

  predicate AllScalars(cs: seq<nat>) {
    forall i | 0 <= i < |cs| :: IsScalar(cs[i])
  }

  function EncodeAll(cs: seq<nat>): Bytes
    requires AllScalars(cs)
  {
    if cs == [] then [] else EncodeScalar(cs[0]) + EncodeAll(cs[1..])
  }

  /** Text is what encodes some characters, */
  lemma {:induction false} EncodedIsText(cs: seq<nat>)
    requires AllScalars(cs)
    ensures Valid(EncodeAll(cs))
  {
    if cs != [] {
      EncodedIsText(cs[1..]);
      ScalarIsFirst(cs[0], EncodeAll(cs[1..]));
      ValidCons(EncodeScalar(cs[0]), EncodeAll(cs[1..]));
    }
  }

  /** and nothing else. */
  lemma {:induction false} TextIsEncoded(s: Bytes) returns (cs: seq<nat>)
    requires Valid(s)
    ensures AllScalars(cs) && EncodeAll(cs) == s
    decreases |s|
  {
    cs := [];
    if s != [] {
      var n := First(s).0;
      var c := FirstIsScalar(s);
      var rest := TextIsEncoded(s[n..]);
      cs := [c] + rest;
      assert cs[1..] == rest && s == s[..n] + s[n..];
    }
  }

  /** The bytes could be the beginning of a character. */
  ghost predicate Begins(s: Bytes) {
    exists c: nat | IsScalar(c) :: s <= EncodeScalar(c)
  }

  lemma {:induction false} TooLong(s: Bytes, c: nat)
    requires s != [] && !First(s).1 && First(s).0 < |s| && IsScalar(c)
    ensures !(s[..First(s).0 + 1] <= EncodeScalar(c))
  {
    ScalarIsFirst(c, []);
    var n, e := First(s).0, EncodeScalar(c);
    if s[..n + 1] <= e {
      assert forall i | 0 <= i <= n :: s[..n + 1][i] == s[i] == e[i];
      hide EncodeScalar;
      assert false;
    }
  }

  lemma {:induction false} Unfinished(s: Bytes) returns (c: nat)
    requires s != [] && !First(s).1 && First(s).0 > 1
    ensures IsScalar(c) && s[..First(s).0] < EncodeScalar(c)
  {
    var second := Bits(s[1], 0x80);
    if s[0] < 0xF0 {
      var lead := Bits(s[0], 0xE0);
      c := lead * 4096 + second * 64 + 0;
      Places(0, lead, second, 0);
    } else {
      var lead := Bits(s[0], 0xF0);
      var third := if First(s).0 == 3 then Bits(s[2], 0x80) else 0;
      c := lead * 26_2144 + second * 4096 + third * 64 + 0;
      Places(lead, second, third, 0);
    }
  }

  /** The conversion of every string, from the front: a character is kept; where there is none,
      the longest part that could have begun one, or else a single byte, becomes U+FFFD. */
  lemma {:induction false} LossyFront(s: Bytes) returns (n: nat)
    requires s != []
    ensures 1 <= n <= |s|
    ensures || (&& (exists c: nat | IsScalar(c) :: EncodeScalar(c) == s[..n])
                && Lossy(s) == s[..n] + Lossy(s[n..]))
            || (&& (forall c: nat | IsScalar(c) :: !(EncodeScalar(c) <= s))
                && (n == 1 || Begins(s[..n])) && (n < |s| ==> !Begins(s[..n + 1]))
                && Lossy(s) == [0xEF, 0xBF, 0xBD] + Lossy(s[n..]))
  {
    n := First(s).0;
    hide First, EncodeScalar;
    if First(s).1 {
      var c := FirstIsScalar(s);
    } else {
      forall c: nat | IsScalar(c)
        ensures !(EncodeScalar(c) <= s)
        ensures n < |s| ==> !(s[..n + 1] <= EncodeScalar(c))
      {
        if EncodeScalar(c) <= s {
          ScalarIsFound(s, c);
          assert false;
        }
        if n < |s| {
          TooLong(s, c);
        }
      }
      if n > 1 {
        var c := Unfinished(s);
      }
    }
  }
}
