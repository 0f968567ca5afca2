/** The form codec: `urlencode` (worker/src/services/oauth.rs) and `url_decode` with the
    callback's query parser (worker/src/routes.rs), on UTF-8 bytes.  Percent-encoding is that
    of RFC 3986 section 2.1, the unreserved bytes are those of section 2.3. */
module FormCodec {
  import opened Protocol
  import opened Utf8

  const PLUS: Byte := 43
  const SPACE: Byte := 32
  const PERCENT: Byte := 37
  const AMPERSAND: Byte := 38
  const EQUALS: Byte := 61

  predicate Unreserved(b: Byte) {
    || 'A' as int <= b <= 'Z' as int
    || 'a' as int <= b <= 'z' as int
    || '0' as int <= b <= '9' as int
    || b == '-' as int || b == '_' as int || b == '.' as int || b == '~' as int
  }

  function HexDigit(n: nat): Byte
    requires n < 16
  {
    if n < 10 then '0' as int + n else 'A' as int + (n - 10)
  }

  function HexValue(b: Byte): Option<nat> {
    if '0' as int <= b <= '9' as int then Some(b - '0' as int)
    else if 'A' as int <= b <= 'F' as int then Some(b - 'A' as int + 10)
    else if 'a' as int <= b <= 'f' as int then Some(b - 'a' as int + 10)
    else None
  }

  function EncodeByte(b: Byte): Bytes {
    if Unreserved(b) then [b]
    else if b == SPACE then [PLUS]
    else [PERCENT, HexDigit(b / 16), HexDigit(b % 16)]
  }

  function Encode(s: Bytes): Bytes {
    if s == [] then [] else EncodeByte(s[0]) + Encode(s[1..])
  }

  /** `u8::from_str_radix` on two bytes: two hex digits, or a plus sign and one. */
  function ParseHex(a: Byte, b: Byte): Option<nat> {
    match (HexValue(a), HexValue(b))
    case (Some(x), Some(y)) => Some(16 * x + y)
    case (None, Some(y)) => if a == PLUS then Some(y) else None
    case _ => None
  }

  /** How many bytes the decoder reads at the front of `s`, and the byte it makes of them. */
  function DecodeOne(s: Bytes): (r: (nat, Byte))
    requires s != []
    ensures 1 <= r.0 <= |s|
  {
    if s[0] == PLUS then (1, SPACE)
    else if s[0] == PERCENT && |s| > 2 && ParseHex(s[1], s[2]).Some? then
      ParseHexIsByte(s[1], s[2]);
      (3, ParseHex(s[1], s[2]).value)
    else (1, s[0])
  }

  lemma {:induction false} ParseHexIsByte(a: Byte, b: Byte)
    ensures ParseHex(a, b).Some? ==> ParseHex(a, b).value < 256
  {
  }

  function Decode(s: Bytes): Bytes
    decreases |s|
  {
    if s == [] then []
    else
      var (n, b) := DecodeOne(s);
      [b] + Decode(s[n..])
  }

  lemma {:induction false} EncodeNext(out: Bytes, s: Bytes, i: nat)
    requires i < |s|
    ensures out + Encode(s[i..]) == out + EncodeByte(s[i]) + Encode(s[i + 1..])
  {
    var rest := s[i..];
    assert rest[1..] == s[i + 1..] && Encode(rest) == EncodeByte(rest[0]) + Encode(rest[1..]);
    assert out + (EncodeByte(s[i]) + Encode(s[i + 1..])) == out + EncodeByte(s[i]) + Encode(s[i + 1..]);
  }

  lemma {:induction false} DecodeNext(out: Bytes, s: Bytes, i: nat)
    requires i < |s|
    ensures var (n, b) := DecodeOne(s[i..]);
            out + Decode(s[i..]) == out + [b] + Decode(s[i + n..])
  {
    var rest := s[i..];
    var (n, b) := DecodeOne(rest);
    assert rest[n..] == s[i + n..] && Decode(rest) == [b] + Decode(rest[n..]);
    assert out + ([b] + Decode(s[i + n..])) == out + [b] + Decode(s[i + n..]);
  }

  method UrlEncode(s: Bytes) returns (out: Bytes)
    ensures out == Encode(s)
  {
    out := [];
    assert s[0..] == s && Encode([]) == [];
    hide Encode, Unreserved, HexDigit;
    for i := 0 to |s|
      invariant out + Encode(s[i..]) == Encode(s)
    {
      EncodeNext(out, s, i);
      if Unreserved(s[i]) {
        out := out + [s[i]];
      } else if s[i] == SPACE {
        out := out + [PLUS];
      } else {
        out := out + [PERCENT, HexDigit(s[i] / 16), HexDigit(s[i] % 16)];
      }
    }
    assert s[|s|..] == [];
  }

  /** The bytes are decoded first and made text at the end. */
  method UrlDecode(s: Bytes) returns (text: Text)
    ensures text == Lossy(Decode(s))
  {
    hide Decode, HexValue, Lossy, Valid;
    var out: Bytes := [];
    var i := 0;
    assert s[0..] == s;
    while i < |s|
      invariant 0 <= i <= |s|
      invariant out + Decode(s[i..]) == Decode(s)
    {
      DecodeNext(out, s, i);
      if s[i] == PLUS {
        out := out + [SPACE];
        i := i + 1;
      } else if s[i] == PERCENT && i + 2 < |s| {
        var hex := ParseHex(s[i + 1], s[i + 2]);
        ParseHexIsByte(s[i + 1], s[i + 2]);
        if hex.Some? {
          out := out + [hex.value];
          i := i + 3;
        } else {
          out := out + [PERCENT];
          i := i + 1;
        }
      } else {
        out := out + [s[i]];
        i := i + 1;
      }
    }
    DecodeEnds(out, s[i..]);
    LossyMeans(out);
    return Lossy(out);
  }

  lemma {:induction false} DecodeEnds(out: Bytes, rest: Bytes)
    requires rest == []
    ensures out + Decode(rest) == out
  {
  }

  // ----- Round trip -----

  lemma {:induction false} HexReads(n: nat)
    requires n < 16
    ensures HexValue(HexDigit(n)) == Some(n)
  {
  }

  lemma {:induction false} OneByte(b: Byte, rest: Bytes)
    ensures DecodeOne(EncodeByte(b) + rest) == (|EncodeByte(b)|, b)
  {
    HexReads(b / 16);
    HexReads(b % 16);
  }

  /** Decoding undoes encoding, for every string. */
  lemma {:induction false} RoundTrip(s: Bytes)
    ensures Decode(Encode(s)) == s
  {
    if s == [] {
    } else {
      OneByte(s[0], Encode(s[1..]));
      assert (EncodeByte(s[0]) + Encode(s[1..]))[|EncodeByte(s[0])|..] == Encode(s[1..]);
      RoundTrip(s[1..]);
    }
  }

  /** An encoded string is made of unreserved bytes, plus signs and percent escapes, so a form
      may use `&` and `=` around it. */
  predicate Safe(b: Byte) {
    Unreserved(b) || b == PLUS || b == PERCENT
  }

  lemma {:induction false} EncodedIsSafe(s: Bytes)
    ensures forall b | b in Encode(s) :: Safe(b)
  {
    if s != [] {
      EncodedIsSafe(s[1..]);
    }
  }

  /** What the decoder leaves alone. */
  lemma {:induction false} PlainIsUnchanged(s: Bytes)
    requires PLUS !in s && PERCENT !in s
    ensures Decode(s) == s
  {
    if s != [] {
      PlainIsUnchanged(s[1..]);
    }
  }

  /** For every string: the decoded text is the string that was encoded. */
  lemma {:induction false} TextRoundTrip(s: Text)
    ensures Lossy(Decode(Encode(s))) == s
  {
    RoundTrip(s);
    LossyMeans(s);
  }

  // ----- Bad escapes -----

  /** The decoder as its comment has it: an escape is a percent sign and two hex digits, and
      everything else but the plus sign is left unchanged. */
  function StrictOne(s: Bytes): (r: (nat, Byte))
    requires s != []
    ensures 1 <= r.0 <= |s|
  {
    if s[0] == PLUS then (1, SPACE)
    else if s[0] == PERCENT && |s| > 2 && HexValue(s[1]).Some? && HexValue(s[2]).Some? then
      (3, 16 * HexValue(s[1]).value + HexValue(s[2]).value)
    else (1, s[0])
  }

  function StrictDecode(s: Bytes): Bytes
    decreases |s|
  {
    if s == [] then []
    else
      var (n, b) := StrictOne(s);
      [b] + StrictDecode(s[n..])
  }

  /** A percent sign, a plus sign and a hex digit. */
  predicate SignedAt(s: Bytes, i: int) {
    0 <= i && i + 2 < |s| && s[i] == PERCENT && s[i + 1] == PLUS && HexValue(s[i + 2]).Some?
  }

  function SignedCount(s: Bytes): nat {
    if s == [] then 0 else (if SignedAt(s, 0) then 1 else 0) + SignedCount(s[1..])
  }

  lemma {:induction false} NoneCounted(s: Bytes)
    ensures SignedCount(s) == 0 <==> forall i :: !SignedAt(s, i)
  {
    if s != [] {
      NoneCounted(s[1..]);
      forall i
        ensures i != 0 ==> (SignedAt(s, i) <==> SignedAt(s[1..], i - 1))
      {
      }
      if !(forall i :: !SignedAt(s[1..], i)) {
        var i :| SignedAt(s[1..], i);
        assert SignedAt(s, i + 1);
      }
      hide HexValue;
    }
  }

  /** No escape starts inside an escape, signed or not. */
  lemma {:induction false} CountAfterOne(s: Bytes)
    requires s != []
    ensures SignedCount(s) == (if SignedAt(s, 0) then 1 else 0) + SignedCount(s[DecodeOne(s).0..])
  {
    if DecodeOne(s).0 == 3 {
      assert s[1] != PERCENT && s[2] != PERCENT;
      assert s[1..][1..] == s[2..] && s[2..][1..] == s[3..];
      assert SignedCount(s[1..]) == SignedCount(s[2..]) == SignedCount(s[3..]);
    }
  }

  lemma {:induction false} DigitIsPlain(b: Byte)
    requires HexValue(b).Some?
    ensures b != PLUS && b != PERCENT
  {
  }

  /** The strict decoder leaves the three bytes of a signed escape where they are, but for the
      plus sign. */
  lemma {:induction false} StrictlySigned(s: Bytes)
    requires SignedAt(s, 0)
    ensures StrictDecode(s) == [PERCENT, SPACE, s[2]] + StrictDecode(s[3..])
  {
    DigitIsPlain(s[2]);
    assert StrictDecode(s) == [PERCENT] + StrictDecode(s[1..]);
    assert s[1..][1..] == s[2..] && s[2..][1..] == s[3..];
    assert StrictDecode(s[1..]) == [SPACE] + StrictDecode(s[2..]);
    assert StrictDecode(s[2..]) == [s[2]] + StrictDecode(s[3..]);
  }

  lemma {:induction false} SameOne(s: Bytes)
    requires s != [] && !SignedAt(s, 0)
    ensures StrictOne(s) == DecodeOne(s)
  {
  }

  /** Each signed escape costs two bytes, and nothing else tells the decoders apart. */
  lemma {:induction false} StrictLength(s: Bytes)
    ensures |StrictDecode(s)| == |Decode(s)| + 2 * SignedCount(s)
    ensures SignedCount(s) == 0 ==> StrictDecode(s) == Decode(s)
    decreases |s|
  {
    if s != [] {
      CountAfterOne(s);
      if SignedAt(s, 0) {
        StrictlySigned(s);
        assert DecodeOne(s).0 == 3;
      } else {
        SameOne(s);
      }
      StrictLength(s[DecodeOne(s).0..]);
      hide SignedAt, DecodeOne, StrictOne, SignedCount;
    }
  }

  /** Bad escapes fall through unchanged exactly when the input has no percent sign followed
      by a plus sign and a hex digit. */
  lemma {:induction false} StrictExactly(s: Bytes)
    ensures Decode(s) == StrictDecode(s) <==> forall i :: !SignedAt(s, i)
  {
    StrictLength(s);
    NoneCounted(s);
    hide Decode, StrictDecode, SignedCount;
  }

  /** An input that shows it: `%+5` is the byte 5. */
  lemma {:induction false} SignedEscape()
    ensures Decode([PERCENT, PLUS, '5' as int]) == [5]
    ensures StrictDecode([PERCENT, PLUS, '5' as int]) == [PERCENT, SPACE, '5' as int]
  {
    var s: Bytes := [PERCENT, PLUS, '5' as int];
    assert s[3..] == [] && HexValue('5' as int) == Some(5);
    assert Decode([]) == [] && StrictDecode([]) == [];
    StrictlySigned(s);
  }

  // ----- Queries -----

  /** `split`: the pieces between the separators, at least one. */
  function Split(s: Bytes, sep: Byte): (pieces: seq<Bytes>)
    ensures pieces != []
  {
    if s == [] then [[]]
    else
      var rest := Split(s[1..], sep);
      if s[0] == sep then [[]] + rest else [[s[0]] + rest[0]] + rest[1..]
  }

  /** `split_once`, or the whole and nothing. */
  function KeyValue(pair: Bytes): (Bytes, Bytes) {
    if pair == [] then ([], [])
    else if pair[0] == EQUALS then ([], pair[1..])
    else
      var (k, v) := KeyValue(pair[1..]);
      ([pair[0]] + k, v)
  }

  function Ascii(s: string): (b: Bytes)
    requires forall c | c in s :: c as int < 128
    ensures |b| == |s|
  {
    seq(|s|, i requires 0 <= i < |s| => AsciiByte(s[i]))
  }

  function AsciiByte(c: char): Byte {
    if c as int < 128 then c as int else 0
  }

  const STATE: Bytes := Ascii("state")
  const CODE: Bytes := Ascii("code")
  const ERROR: Bytes := Ascii("error")
  const ERROR_DESCRIPTION: Bytes := Ascii("error_description")

  datatype Callback = Callback(state: Option<Bytes>, code: Option<Bytes>, error: Option<Bytes>)

  /** One assignment of the loop. */
  function Assign(c: Callback, key: Bytes, value: Bytes): Callback {
    if key == STATE then c.(state := Some(value))
    else if key == CODE then c.(code := Some(value))
    else if key == ERROR || key == ERROR_DESCRIPTION then c.(error := Some(value))
    else c
  }

  function AssignPair(c: Callback, pair: Bytes): Callback {
    if pair == [] then c
    else
      var (k, v) := KeyValue(pair);
      Assign(c, k, Lossy(Decode(v)))
  }

  function AssignAll(c: Callback, pairs: seq<Bytes>): Callback
    decreases |pairs|
  {
    if pairs == [] then c else AssignAll(AssignPair(c, pairs[0]), pairs[1..])
  }

  const NOTHING := Callback(None, None, None)

  /** The loop over the pairs of a query. */
  method ParseCallback(query: Bytes) returns (result: Callback)
    ensures result == AssignAll(NOTHING, Split(query, AMPERSAND))
  {
    var state, code, error := None, None, None;
    var pairs := Split(query, AMPERSAND);
    for i := 0 to |pairs|
      invariant AssignAll(Callback(state, code, error), pairs[i..]) == AssignAll(NOTHING, pairs)
    {
      assert pairs[i..][0] == pairs[i] && pairs[i..][1..] == pairs[i + 1..];
      if pairs[i] != [] {
        var (key, raw) := KeyValue(pairs[i]);
        var value := UrlDecode(raw);
        if key == STATE {
          state := Some(value);
        } else if key == CODE {
          code := Some(value);
        } else if key == ERROR || key == ERROR_DESCRIPTION {
          error := Some(value);
        }
      }
    }
    return Callback(state, code, error);
  }

  // ----- Forms -----

  function Field(key: Bytes, value: Bytes): Bytes {
    key + [EQUALS] + Encode(value)
  }

  /** `k1=v1&k2=v2&...`, the values encoded. */
  function Form(fields: seq<(Bytes, Text)>): Bytes {
    if fields == [] then []
    else if |fields| == 1 then Field(fields[0].0, fields[0].1)
    else Field(fields[0].0, fields[0].1) + [AMPERSAND] + Form(fields[1..])
  }

  /** The last value given for one of the keys. */
  function LastValue(fields: seq<(Bytes, Text)>, keys: set<Bytes>): Option<Bytes> {
    if fields == [] then None
    else
      var last := fields[|fields| - 1];
      if last.0 in keys then Some(last.1) else LastValue(fields[..|fields| - 1], keys)
  }

  function Meaning(fields: seq<(Bytes, Text)>): Callback {
    Callback(LastValue(fields, {STATE}), LastValue(fields, {CODE}), LastValue(fields, {ERROR, ERROR_DESCRIPTION}))
  }

  predicate PlainKey(key: Bytes) {
    AMPERSAND !in key && EQUALS !in key
  }

  lemma {:induction false} SplitPiece(piece: Bytes, sep: Byte, rest: Bytes)
    requires sep !in piece
    ensures Split(piece, sep) == [piece]
    ensures Split(piece + [sep] + rest, sep) == [piece] + Split(rest, sep)
  {
    if piece == [] {
      assert ([] + [sep] + rest)[1..] == rest;
    } else {
      SplitPiece(piece[1..], sep, rest);
      assert [piece[0]] + piece[1..] == piece;
      assert (piece + [sep] + rest)[1..] == piece[1..] + [sep] + rest;
    }
  }

  lemma {:induction false} KeyValueOfField(key: Bytes, value: Bytes)
    requires EQUALS !in key
    ensures KeyValue(key + [EQUALS] + value) == (key, value)
    decreases |key|
  {
    if key == [] {
      assert ([] + [EQUALS] + value)[1..] == value;
    } else {
      assert (key + [EQUALS] + value)[1..] == key[1..] + [EQUALS] + value;
      KeyValueOfField(key[1..], value);
      assert [key[0]] + key[1..] == key;
    }
  }

  lemma {:induction false} FieldParses(c: Callback, key: Bytes, value: Text)
    requires PlainKey(key)
    ensures AMPERSAND !in Field(key, value)
    ensures AssignPair(c, Field(key, value)) == Assign(c, key, value)
  {
    EncodedIsSafe(value);
    KeyValueOfField(key, Encode(value));
    TextRoundTrip(value);
    hide Encode, Decode, KeyValue, Assign;
  }

  function AssignFields(c: Callback, fields: seq<(Bytes, Text)>): Callback
    decreases |fields|
  {
    if fields == [] then c else AssignFields(Assign(c, fields[0].0, fields[0].1), fields[1..])
  }

  lemma {:induction false} FormParses(c: Callback, fields: seq<(Bytes, Text)>)
    requires forall f | f in fields :: PlainKey(f.0)
    ensures AssignAll(c, Split(Form(fields), AMPERSAND)) == AssignFields(c, fields)
    decreases |fields|
  {
    if fields == [] {
      var empty: seq<Bytes> := [[]];
      assert empty[1..] == [];
    } else {
      var field := Field(fields[0].0, fields[0].1);
      var next := Assign(c, fields[0].0, fields[0].1);
      FieldParses(c, fields[0].0, fields[0].1);
      if |fields| == 1 {
        SplitPiece(field, AMPERSAND, []);
        var none: seq<(Bytes, Text)> := [];
        assert fields[1..] == none;
      } else {
        SplitPiece(field, AMPERSAND, Form(fields[1..]));
        var pieces := Split(Form(fields[1..]), AMPERSAND);
        assert ([field] + pieces)[1..] == pieces;
        FormParses(next, fields[1..]);
      }
      hide Field, Split, Assign, AssignPair;
    }
  }

  lemma {:induction false} AssignFieldsSnoc(c: Callback, fields: seq<(Bytes, Text)>, f: (Bytes, Text))
    ensures AssignFields(c, fields + [f]) == Assign(AssignFields(c, fields), f.0, f.1)
    decreases |fields|
  {
    if fields == [] {
      assert fields + [f] == [f] && |[f][1..]| == 0;
    } else {
      assert (fields + [f])[1..] == fields[1..] + [f];
      AssignFieldsSnoc(Assign(c, fields[0].0, fields[0].1), fields[1..], f);
    }
    hide Assign;
  }

  lemma {:induction false} KeysDiffer()
    ensures STATE != CODE && STATE != ERROR && STATE != ERROR_DESCRIPTION
    ensures CODE != ERROR && CODE != ERROR_DESCRIPTION
    ensures PlainKey(STATE) && PlainKey(CODE)
  {
    assert STATE[0] == 's' as int && CODE[0] == 'c' as int && ERROR[0] == 'e' as int && ERROR_DESCRIPTION[0] == 'e' as int;
  }

  lemma {:induction false} AssignFieldsMean(fields: seq<(Bytes, Text)>)
    ensures AssignFields(NOTHING, fields) == Meaning(fields)
  {
    if fields == [] {
    } else {
      var n := |fields| - 1;
      AssignFieldsMean(fields[..n]);
      assert fields == fields[..n] + [fields[n]];
      AssignFieldsSnoc(NOTHING, fields[..n], fields[n]);
      KeysDiffer();
      hide AssignFields;
    }
  }

  /** The callback reads back every form: for any fields in any order, whatever bytes their
      values hold, it finds the last state, the last code and the last error. */
  lemma {:induction false} FormRoundTrip(fields: seq<(Bytes, Text)>)
    requires forall f | f in fields :: PlainKey(f.0)
    ensures AssignAll(NOTHING, Split(Form(fields), AMPERSAND)) == Meaning(fields)
  {
    FormParses(NOTHING, fields);
    AssignFieldsMean(fields);
  }

  datatype CallbackPage = Refused(error: Bytes) | Incomplete | Shown(state: Bytes, code: Bytes)

  function PageOf(c: Callback): CallbackPage {
    if c.error.Some? then Refused(c.error.value)
    else if c.state.None? || c.code.None? then Incomplete
    else Shown(c.state.value, c.code.value)
  }

  /** A state and a code are shown as they are. */
  lemma {:induction false} TwoFields(state: Text, code: Text)
    ensures var query := STATE + [EQUALS] + Encode(state) + [AMPERSAND] + CODE + [EQUALS] + Encode(code);
            PageOf(AssignAll(NOTHING, Split(query, AMPERSAND))) == Shown(state, code)
  {
    var fields: seq<(Bytes, Text)> := [(STATE, state), (CODE, code)];
    KeysDiffer();
    FormRoundTrip(fields);
    var query := STATE + [EQUALS] + Encode(state) + [AMPERSAND] + CODE + [EQUALS] + Encode(code);
    assert fields[1..] == [(CODE, code)];
    assert Form(fields[1..]) == Field(CODE, code);
    assert Form(fields) == query;
    var one: seq<(Bytes, Text)> := [(STATE, state)];
    assert fields[..1] == one;
    assert LastValue(one, {ERROR, ERROR_DESCRIPTION}) == LastValue(one[..0], {ERROR, ERROR_DESCRIPTION}) == None;
    assert LastValue(fields, {STATE}) == Some(state) && LastValue(fields, {CODE}) == Some(code);
    assert LastValue(fields, {ERROR, ERROR_DESCRIPTION}) == None;
  }
}
