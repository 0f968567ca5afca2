/** The form codec and the callback in plain bytes: what is written for every byte, what is read
    at every position, and what page every query leads to. */
module FormLaws {
  import opened Protocol
  import opened Utf8
  import opened FormCodec

  // ----- Bytes -----

  /** `b` is the hex digit of value `v`, in either case. */
  predicate IsHexOf(b: Byte, v: nat) {
    (v < 10 && b == 48 + v) || (10 <= v < 16 && (b == 55 + v || b == 87 + v))
  }

  predicate IsHex(b: Byte) {
    exists v: nat | v < 16 :: IsHexOf(b, v)
  }

  lemma {:induction false} HexIs(b: Byte)
    ensures forall v: nat :: HexValue(b) == Some(v) <==> IsHexOf(b, v)
    ensures HexValue(b).Some? <==> IsHex(b)
  {
    if HexValue(b).Some? {
      assert IsHexOf(b, HexValue(b).value);
    }
  }

  /** What the decoder makes of the front of every string. */
  lemma {:induction false} ReadsFront(s: Bytes, x: nat, y: nat)
    requires s != []
    ensures s[0] == 43 ==> Decode(s) == [32] + Decode(s[1..])
    ensures s[0] != 43 && s[0] != 37 ==> Decode(s) == [s[0]] + Decode(s[1..])
    ensures s[0] == 37 && |s| >= 3 && IsHexOf(s[1], x) && IsHexOf(s[2], y) ==> Decode(s) == [16 * x + y] + Decode(s[3..])
    ensures s[0] == 37 && |s| >= 3 && s[1] == 43 && IsHexOf(s[2], y) ==> Decode(s) == [y] + Decode(s[3..])
    ensures s[0] == 37 && (|s| < 3 || !IsHex(s[2]) || (s[1] != 43 && !IsHex(s[1]))) ==>
              Decode(s) == [37] + Decode(s[1..])
  {
    if |s| >= 3 {
      HexIs(s[1]);
      HexIs(s[2]);
      hide HexValue;
      assert HexValue(s[1]) == Some(x) <==> IsHexOf(s[1], x);
      assert HexValue(s[2]) == Some(y) <==> IsHexOf(s[2], y);
      assert s[1] == 43 ==> !IsHex(s[1]);
    }
  }

  /** What the encoder writes for every byte: letters, digits and `-._~` as they are, a plus sign
      for a space, and three bytes in upper case for anything else. */
  lemma {:induction false} WritesFront(s: Bytes)
    requires s != []
    ensures var b := s[0];
            Encode(s) ==
            (if 65 <= b <= 90 || 97 <= b <= 122 || 48 <= b <= 57 || b in {45, 46, 95, 126} then [b]
             else if b == 32 then [43]
             else [37, UpperHex(b / 16), UpperHex(b % 16)]) + Encode(s[1..])
  {
    hide Encode;
    assert Encode(s) == EncodeByte(s[0]) + Encode(s[1..]) by {
      EncodeNext([], s, 0);
      assert [] + Encode(s[0..]) == Encode(s) && s[0..] == s;
      assert [] + EncodeByte(s[0]) == EncodeByte(s[0]);
    }
  }

  function UpperHex(v: nat): (b: Byte)
    requires v < 16
    ensures IsHexOf(b, v) && b < 97
  {
    if v < 10 then 48 + v else 55 + v
  }

  // ----- Queries -----

  function Join(pieces: seq<Bytes>, sep: Byte): Bytes
    requires pieces != []
  {
    if |pieces| == 1 then pieces[0] else pieces[0] + [sep] + Join(pieces[1..], sep)
  }

  /** The pieces are what lies between the separators. */
  lemma {:induction false} SplitExactly(s: Bytes, sep: Byte)
    ensures Join(Split(s, sep), sep) == s
    ensures forall piece | piece in Split(s, sep) :: sep !in piece
  {
    if s != [] {
      SplitExactly(s[1..], sep);
      var rest := Split(s[1..], sep);
      if s[0] == sep {
        var empty: Bytes := [];
        assert ([empty] + rest)[1..] == rest;
        assert s == [] + [sep] + s[1..];
      } else {
        assert ([[s[0]] + rest[0]] + rest[1..])[1..] == rest[1..];
        assert s == [s[0]] + s[1..];
        assert |rest| > 1 ==> [s[0]] + (rest[0] + [sep] + Join(rest[1..], sep))
                              == [s[0]] + rest[0] + [sep] + Join(rest[1..], sep);
      }
    }
  }

  /** The first `=` ends the key; without one, everything is the key. */
  lemma {:induction false} KeyValueExactly(pair: Bytes, i: nat)
    requires i <= |pair| && 61 !in pair[..i] && (i < |pair| ==> pair[i] == 61)
    ensures KeyValue(pair) == (pair[..i], if i < |pair| then pair[i + 1..] else [])
  {
    if pair != [] {
      if i == 0 {
        assert pair[..0] == [];
      } else {
        assert pair[0] == pair[..i][0];
        assert pair[1..][..i - 1] == pair[..i][1..];
        assert i < |pair| ==> pair[1..][i - 1] == pair[i] && pair[1..][i..] == pair[i + 1..];
        KeyValueExactly(pair[1..], i - 1);
        assert [pair[0]] + pair[1..][..i - 1] == pair[..i];
      }
    } else {
      assert pair[..i] == [];
    }
  }

  /** The names of the callback's fields, in ASCII. */
  lemma {:induction false} Names()
    ensures STATE == [115, 116, 97, 116, 101]
    ensures CODE == [99, 111, 100, 101]
    ensures ERROR == [101, 114, 114, 111, 114]
    ensures ERROR_DESCRIPTION
            == [101, 114, 114, 111, 114, 95, 100, 101, 115, 99, 114, 105, 112, 116, 105, 111, 110]
  {
    assert |STATE| == 5 && |CODE| == 4 && |ERROR| == 5 && |ERROR_DESCRIPTION| == 17;
  }

  predicate Unnamed(fields: seq<(Bytes, Text)>, keys: set<Bytes>) {
    forall i | 0 <= i < |fields| :: fields[i].0 !in keys
  }

  /** The last field with one of these names has this value. */
  predicate IsLast(fields: seq<(Bytes, Text)>, keys: set<Bytes>, value: Bytes) {
    exists i | 0 <= i < |fields| :: fields[i].0 in keys && fields[i].1 == value && Unnamed(fields[i + 1..], keys)
  }

  lemma {:induction false} LastValueIs(fields: seq<(Bytes, Text)>, keys: set<Bytes>)
    ensures LastValue(fields, keys).None? ==> Unnamed(fields, keys)
    ensures LastValue(fields, keys).Some? ==> IsLast(fields, keys, LastValue(fields, keys).value)
  {
    if fields != [] {
      var n := |fields| - 1;
      if fields[n].0 in keys {
        assert Unnamed(fields[n + 1..], keys);
      } else {
        LastValueIs(fields[..n], keys);
        if LastValue(fields[..n], keys).Some? {
          var value := LastValue(fields[..n], keys).value;
          var i :| 0 <= i < n && fields[..n][i].0 in keys && fields[..n][i].1 == value
                   && Unnamed(fields[..n][i + 1..], keys);
          assert fields[..n][i] == fields[i];
          assert fields[i + 1..] == fields[..n][i + 1..] + [fields[n]];
        } else {
          assert forall i | 0 <= i < n :: fields[..n][i] == fields[i];
        }
      }
    }
  }

  /** The page for these fields, by the names of its fields. */
  ghost predicate LeadsTo(fields: seq<(Bytes, Text)>, state: Bytes, code: Bytes, errors: set<Bytes>, page: CallbackPage) {
    match page
    case Refused(message) => IsLast(fields, errors, message)
    case Incomplete => Unnamed(fields, errors) && (Unnamed(fields, {state}) || Unnamed(fields, {code}))
    case Shown(s, c) => Unnamed(fields, errors) && IsLast(fields, {state}, s) && IsLast(fields, {code}, c)
  }

  lemma {:induction false} MeaningLeads(fields: seq<(Bytes, Text)>)
    ensures LeadsTo(fields, STATE, CODE, {ERROR, ERROR_DESCRIPTION}, PageOf(Meaning(fields)))
  {
    LastValueIs(fields, {STATE});
    LastValueIs(fields, {CODE});
    LastValueIs(fields, {ERROR, ERROR_DESCRIPTION});
    hide LastValue, IsLast, Unnamed;
  }

  /** The page for every form: the last error or error description if there is one; otherwise the
      last state and the last code if there are both. */
  lemma {:induction false} CallbackExactly(fields: seq<(Bytes, Text)>)
    requires forall f | f in fields :: 38 !in f.0 && 61 !in f.0
    ensures LeadsTo(fields, [115, 116, 97, 116, 101], [99, 111, 100, 101],
                    {[101, 114, 114, 111, 114],
                     [101, 114, 114, 111, 114, 95, 100, 101, 115, 99, 114, 105, 112, 116, 105, 111, 110]},
                    PageOf(AssignAll(NOTHING, Split(Form(fields), 38))))
  {
    hide LeadsTo, Meaning, AssignAll, Split, Form, Ascii;
    Names();
    FormRoundTrip(fields);
    MeaningLeads(fields);
  }

  /** `state=<encoded>&code=<encoded>` shows exactly the two strings. */
  lemma {:induction false} CallbackRoundTrip(state: Text, code: Text)
    ensures var query := [115, 116, 97, 116, 101, 61] + Encode(state) + [38, 99, 111, 100, 101, 61] + Encode(code);
            PageOf(AssignAll(NOTHING, Split(query, 38))) == Shown(state, code)
  {
    Names();
    TwoFields(state, code);
    hide Encode, Split, AssignAll, Ascii;
    var query := [115, 116, 97, 116, 101, 61] + Encode(state) + [38, 99, 111, 100, 101, 61] + Encode(code);
    assert STATE + [EQUALS] == [115, 116, 97, 116, 101, 61] && CODE + [EQUALS] == [99, 111, 100, 101, 61];
    assert STATE + [EQUALS] + Encode(state) + [AMPERSAND] + CODE + [EQUALS] + Encode(code) == query;
  }
}
