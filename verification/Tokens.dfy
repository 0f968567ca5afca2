/** The bearer tokens (worker/src/auth/tokens.rs): signed claims in a macaroon's identifier,
    and `exp` as the one caveat a holder may append. */
module Tokens {
  import opened Domain
  import opened Protocol
  import opened Decimal

  // ----- Macaroons -----

  datatype Caveat = FirstParty(condition: Bytes) | ThirdParty(id: Bytes)

  datatype Macaroon = Macaroon(identifier: Bytes, caveats: seq<Caveat>, signature: Bytes)

  /** HMAC, about which nothing is assumed unless said. */
  type Mac = (Bytes, Bytes) -> Bytes

  function Keyed(mac: Mac, key: Bytes, data: Bytes): Bytes {
    mac(key, data)
  }

  function CaveatBytes(c: Caveat): Bytes {
    if c.FirstParty? then c.condition else c.id
  }

  /** Each caveat is signed with the signature before it. */
  function Chain(mac: Mac, signature: Bytes, caveats: seq<Caveat>): Bytes {
    if caveats == [] then signature
    else Keyed(mac, Chain(mac, signature, caveats[..|caveats| - 1]), CaveatBytes(caveats[|caveats| - 1]))
  }

  /** What any holder can do, without the root key. */
  function Append(mac: Mac, m: Macaroon, condition: Bytes): Macaroon {
    Macaroon(m.identifier, m.caveats + [FirstParty(condition)], Keyed(mac, m.signature, condition))
  }

  function AppendAll(mac: Mac, m: Macaroon, predicates: seq<Bytes>): Macaroon {
    if predicates == [] then m
    else Append(mac, AppendAll(mac, m, predicates[..|predicates| - 1]), predicates[|predicates| - 1])
  }

  const EXP_PREFIX: Bytes := [101, 120, 112, 61]

  function ParseExp(caveat: Bytes): Option<int> {
    if EXP_PREFIX <= caveat then ParseI64(caveat[|EXP_PREFIX|..]) else None
  }

  predicate Satisfied(c: Caveat) {
    c.FirstParty? && ParseExp(c.condition).Some?
  }

  // ----- Claims -----

  datatype Claims = Claims(
    purpose: string,
    userId: string,
    orgId: string,
    email: string,
    role: string,
    databaseId: string,
    direction: string)

  /** The claims' wire format: any pair in which decoding undoes encoding. */
  datatype Codec = Codec(encode: Claims -> Bytes, decode: Bytes -> Option<Claims>)

  function Encoded(codec: Codec, claims: Claims): Bytes {
    (codec.encode)(claims)
  }

  function Decoded(codec: Codec, identifier: Bytes): Option<Claims> {
    (codec.decode)(identifier)
  }

  ghost predicate Faithful(codec: Codec) {
    forall claims :: (codec.decode)((codec.encode)(claims)) == Some(claims)
  }

  datatype TokenError =
    | Malformed
    | Expired
    | InvalidSignature
    | WrongPurpose
    | MissingClaim(claim: string)
    | InvalidClaim
    | UnexpectedCaveat

  type TokenResult<+T> = Result<T, TokenError>

  /** Everything a verifier has: the algorithms and the root key. */
  datatype Keyring = Keyring(mac: Mac, codec: Codec, root: Bytes)

  function Create(kr: Keyring, identifier: Bytes): Macaroon {
    Macaroon(identifier, [], Keyed(kr.mac, kr.root, identifier))
  }

  function Pack(kr: Keyring, claims: Claims, exp: int): Macaroon {
    Append(kr.mac, Create(kr, Encoded(kr.codec, claims)), EXP_PREFIX + Print(exp))
  }

  predicate Signed(kr: Keyring, m: Macaroon) {
    m.signature == Chain(kr.mac, Keyed(kr.mac, kr.root, m.identifier), m.caveats)
  }

  /** The earliest `exp`, if there is one. */
  function Earliest(caveats: seq<Caveat>): Option<int> {
    if caveats == [] then None
    else
      var before := Earliest(caveats[..|caveats| - 1]);
      var last := caveats[|caveats| - 1];
      var exp := if last.FirstParty? then ParseExp(last.condition) else None;
      match (before, exp)
      case (None, _) => exp
      case (_, None) => before
      case (Some(a), Some(b)) => Some(if b < a then b else a)
  }

  function Unpack(kr: Keyring, now: int, m: Macaroon): TokenResult<(Claims, int)> {
    if exists c | c in m.caveats :: !Satisfied(c) then Err(UnexpectedCaveat)
    else if !Signed(kr, m) then Err(InvalidSignature)
    else
      match Earliest(m.caveats)
      case None => Err(MissingClaim("exp"))
      case Some(exp) =>
        if exp <= now then Err(Expired)
        else
          match Decoded(kr.codec, m.identifier)
          case None => Err(Malformed)
          case Some(claims) => Ok((claims, exp))
  }

  // ----- Attenuation -----

  lemma {:induction false} ChainSnoc(mac: Mac, signature: Bytes, caveats: seq<Caveat>, c: Caveat)
    ensures Chain(mac, signature, caveats + [c]) == Keyed(mac, Chain(mac, signature, caveats), CaveatBytes(c))
  {
    assert (caveats + [c])[..|caveats|] == caveats;
  }

  function FirstParties(predicates: seq<Bytes>): seq<Caveat> {
    seq(|predicates|, i requires 0 <= i < |predicates| => FirstParty(predicates[i]))
  }

  lemma {:induction false} AppendsLast(mac: Mac, m: Macaroon, predicates: seq<Bytes>)
    requires predicates != []
    ensures var n := |predicates| - 1;
            AppendAll(mac, m, predicates) == Append(mac, AppendAll(mac, m, predicates[..n]), predicates[n])
  {
  }

  lemma {:induction false} Appended(kr: Keyring, m: Macaroon, predicates: seq<Bytes>)
    ensures var m' := AppendAll(kr.mac, m, predicates);
            && m'.identifier == m.identifier
            && m'.caveats == m.caveats + FirstParties(predicates)
            && (Signed(kr, m) ==> Signed(kr, m'))
  {
    if predicates == [] {
      assert m.caveats + FirstParties(predicates) == m.caveats;
    } else {
      hide AppendAll, Chain, Keyed;
      var n := |predicates| - 1;
      var before := AppendAll(kr.mac, m, predicates[..n]);
      AppendsLast(kr.mac, m, predicates);
      Appended(kr, m, predicates[..n]);
      ChainSnoc(kr.mac, Keyed(kr.mac, kr.root, m.identifier), before.caveats, FirstParty(predicates[n]));
      assert FirstParties(predicates) == FirstParties(predicates[..n]) + [FirstParty(predicates[n])];
      hide FirstParties;
      assert m.caveats + FirstParties(predicates)
             == m.caveats + FirstParties(predicates[..n]) + [FirstParty(predicates[n])];
    }
  }

  /** The earliest of a list of expiry times. */
  ghost predicate IsEarliest(caveats: seq<Caveat>, exp: int) {
    && (exists c | c in caveats :: c.FirstParty? && ParseExp(c.condition) == Some(exp))
    && (forall c | c in caveats && c.FirstParty? && ParseExp(c.condition).Some? :: exp <= ParseExp(c.condition).value)
  }

  lemma {:induction false} EarliestMeans(caveats: seq<Caveat>)
    ensures Earliest(caveats).Some? ==> IsEarliest(caveats, Earliest(caveats).value)
    ensures Earliest(caveats).None? ==> forall c | c in caveats :: !Satisfied(c)
  {
    if caveats != [] {
      var n := |caveats| - 1;
      EarliestMeans(caveats[..n]);
      assert forall c | c in caveats :: c in caveats[..n] || c == caveats[n];
      assert caveats[n] in caveats;
      assert forall c | c in caveats[..n] :: c in caveats;
    }
  }

  // ----- What is accepted -----

  /** The MACs of a token, from the root key on: each is made with the one before it. */
  ghost predicate Links(kr: Keyring, m: Macaroon, links: seq<Bytes>) {
    && |links| == |m.caveats| + 1
    && links[0] == (kr.mac)(kr.root, m.identifier)
    && forall i | 0 <= i < |m.caveats| ::
         m.caveats[i].FirstParty? ==> links[i + 1] == (kr.mac)(links[i], m.caveats[i].condition)
  }

  lemma {:induction false} LinksOf(kr: Keyring, m: Macaroon) returns (links: seq<Bytes>)
    ensures Links(kr, m, links)
    ensures links[|m.caveats|] == Chain(kr.mac, Keyed(kr.mac, kr.root, m.identifier), m.caveats)
    decreases |m.caveats|
  {
    if m.caveats == [] {
      links := [(kr.mac)(kr.root, m.identifier)];
    } else {
      var n := |m.caveats| - 1;
      var before := LinksOf(kr, m.(caveats := m.caveats[..n]));
      links := before + [Keyed(kr.mac, before[n], CaveatBytes(m.caveats[n]))];
    }
  }

  /** A caveat is an expiry exactly when it is `exp=` and an i64. */
  lemma {:induction false} ExpIs(caveat: Bytes)
    ensures ParseExp(caveat) == if |caveat| >= 4 && caveat[..4] == [101, 120, 112, 61] then ParseI64(caveat[4..]) else None
  {
    hide ParseI64;
    assert EXP_PREFIX <= caveat ==> caveat[..4] == EXP_PREFIX;
  }

  /** The answer to every token there can be: it is accepted exactly when every caveat is an
      expiry still ahead, there is one, the signature is the last of the MACs that start at the
      root key, and the identifier decodes; and every other token is refused for the first of
      these that fails. */
  lemma {:induction false} Verdict(kr: Keyring, now: int, m: Macaroon) returns (links: seq<Bytes>)
    ensures Links(kr, m, links)
    ensures var r := Unpack(kr, now, m);
            if exists c | c in m.caveats :: c.ThirdParty? || ParseExp(c.condition).None? then r == Err(UnexpectedCaveat)
            else if m.signature != links[|m.caveats|] then r == Err(InvalidSignature)
            else if m.caveats == [] then r == Err(MissingClaim("exp"))
            else if exists c | c in m.caveats :: ParseExp(c.condition).value <= now then r == Err(Expired)
            else if (kr.codec.decode)(m.identifier).None? then r == Err(Malformed)
            else
              && r.Ok? && r.value.0 == (kr.codec.decode)(m.identifier).value
              && (exists c | c in m.caveats :: ParseExp(c.condition) == Some(r.value.1))
              && (forall c | c in m.caveats :: r.value.1 <= ParseExp(c.condition).value)
  {
    links := LinksOf(kr, m);
    EarliestMeans(m.caveats);
    assert m.caveats != [] ==> m.caveats[0] in m.caveats;
    hide Chain, ParseExp, Links, Earliest;
    assert (exists c | c in m.caveats :: !Satisfied(c)) <==>
      exists c | c in m.caveats :: c.ThirdParty? || ParseExp(c.condition).None?;
  }

  function Conditions(caveats: seq<Caveat>): seq<Bytes> {
    seq(|caveats|, i requires 0 <= i < |caveats| => CaveatBytes(caveats[i]))
  }

  lemma {:induction false} HonestSignature(kr: Keyring, identifier: Bytes, caveats: seq<Caveat>)
    ensures AppendAll(kr.mac, Create(kr, identifier), Conditions(caveats)).signature
            == Chain(kr.mac, Keyed(kr.mac, kr.root, identifier), caveats)
  {
    if caveats != [] {
      var n := |caveats| - 1;
      HonestSignature(kr, identifier, caveats[..n]);
      assert Conditions(caveats)[..n] == Conditions(caveats[..n]);
    }
  }

  lemma {:induction false} HonestCaveats(kr: Keyring, m: Macaroon)
    requires forall c | c in m.caveats :: c.FirstParty?
    ensures var honest := AppendAll(kr.mac, Create(kr, m.identifier), Conditions(m.caveats));
            honest.identifier == m.identifier && honest.caveats == m.caveats
  {
    hide AppendAll, Signed, FirstParties, Conditions;
    Appended(kr, Create(kr, m.identifier), Conditions(m.caveats));
    OwnConditions(m.caveats);
    assert [] + m.caveats == m.caveats;
  }

  lemma {:induction false} OwnConditions(caveats: seq<Caveat>)
    requires forall c | c in caveats :: c.FirstParty?
    ensures FirstParties(Conditions(caveats)) == caveats
  {
    forall i | 0 <= i < |caveats|
      ensures FirstParties(Conditions(caveats))[i] == caveats[i]
    {
      assert caveats[i] in caveats;
    }
  }

  /** Nobody makes an accepted token without the root key, short of knowing its signature: the
      only token with a given identifier and caveats that is accepted is the one that the root
      key's holder gets by creating it and appending the caveats in order. */
  lemma {:induction false} Unforgeable(kr: Keyring, now: int, m: Macaroon)
    ensures var honest := AppendAll(kr.mac, Create(kr, m.identifier), Conditions(m.caveats));
            && (Unpack(kr, now, m).Ok? ==> m == honest)
            && (m.signature != honest.signature ==>
                  && (Unpack(kr, now, m) == Err(InvalidSignature) || Unpack(kr, now, m) == Err(UnexpectedCaveat))
                  && VerifySession(kr, now, m).Err? && VerifySync(kr, now, m).Err?)
  {
    HonestSignature(kr, m.identifier, m.caveats);
    if forall c | c in m.caveats :: Satisfied(c) {
      HonestCaveats(kr, m);
    }
    hide AppendAll, Chain, Conditions, Earliest, ParseExp;
  }

  /** The minted expiry and the appended ones: the earliest decides. */
  ghost predicate EffectiveExp(minted: int, predicates: seq<Bytes>, exp: int) {
    && (exp == minted || exists p | p in predicates :: ParseExp(p) == Some(exp))
    && exp <= minted
    && forall p | p in predicates && ParseExp(p).Some? :: exp <= ParseExp(p).value
  }

  /** What a token minted with these claims and attenuated by these caveats is worth. */
  ghost predicate Attenuated(claims: Claims, minted: int, predicates: seq<Bytes>, now: int, r: TokenResult<(Claims, int)>) {
    if exists p | p in predicates :: ParseExp(p).None? then r == Err(UnexpectedCaveat)
    else exists exp ::
           && EffectiveExp(minted, predicates, exp)
           && r == if exp <= now then Err(Expired) else Ok((claims, exp))
  }

  lemma {:induction false} PackMeans(kr: Keyring, claims: Claims, exp: int)
    requires IsI64(exp)
    ensures var m := Pack(kr, claims, exp);
            && Signed(kr, m) && m.identifier == Encoded(kr.codec, claims)
            && m.caveats == [FirstParty(EXP_PREFIX + Print(exp))]
            && ParseExp(EXP_PREFIX + Print(exp)) == Some(exp)
  {
    PrintReads(exp);
    assert (EXP_PREFIX + Print(exp))[|EXP_PREFIX|..] == Print(exp);
    ChainSnoc(kr.mac, Keyed(kr.mac, kr.root, Encoded(kr.codec, claims)), [], FirstParty(EXP_PREFIX + Print(exp)));
    assert [] + [FirstParty(EXP_PREFIX + Print(exp))] == [FirstParty(EXP_PREFIX + Print(exp))];
  }

  /** Attenuation: whatever caveats holders append to a minted token, verification rejects it
      or returns exactly the minted claims, with the earliest of all the expiry times. */
  lemma {:induction false} Attenuates(kr: Keyring, claims: Claims, minted: int, predicates: seq<Bytes>, now: int)
    requires Faithful(kr.codec) && IsI64(minted)
    ensures Attenuated(claims, minted, predicates, now,
                       Unpack(kr, now, AppendAll(kr.mac, Pack(kr, claims, minted), predicates)))
  {
    var m := Pack(kr, claims, minted);
    PackMeans(kr, claims, minted);
    Appended(kr, m, predicates);
    var m' := AppendAll(kr.mac, m, predicates);
    CaveatsOf(minted, predicates);
    assert m'.caveats == [FirstParty(EXP_PREFIX + Print(minted))] + FirstParties(predicates);
    assert Decoded(kr.codec, Encoded(kr.codec, claims)) == Some(claims);
    hide Pack, AppendAll, Signed, ParseExp, Print, EffectiveExp, Earliest, Faithful;
  }

  /** The caveats of an attenuated token. */
  lemma {:induction false} CaveatsOf(minted: int, predicates: seq<Bytes>)
    requires ParseExp(EXP_PREFIX + Print(minted)) == Some(minted)
    ensures var caveats := [FirstParty(EXP_PREFIX + Print(minted))] + FirstParties(predicates);
            && ((exists c | c in caveats :: !Satisfied(c)) <==> (exists p | p in predicates :: ParseExp(p).None?))
            && Earliest(caveats).Some?
            && EffectiveExp(minted, predicates, Earliest(caveats).value)
  {
    var first := FirstParty(EXP_PREFIX + Print(minted));
    var caveats := [first] + FirstParties(predicates);
    hide ParseExp, Print;
    EarliestMeans(caveats);
    assert first in caveats;
    forall p | p in predicates
      ensures FirstParty(p) in caveats
    {
      var i :| 0 <= i < |predicates| && predicates[i] == p;
      assert caveats[i + 1] == FirstParty(p);
    }
    forall c | c in caveats
      ensures c == first || (c.FirstParty? && c.condition in predicates)
    {
      var i :| 0 <= i < |caveats| && caveats[i] == c;
      assert i > 0 ==> c == FirstParty(predicates[i - 1]);
    }
    hide Earliest;
  }

  lemma {:induction false} EffectiveIsUnique(minted: int, ps: seq<Bytes>, qs: seq<Bytes>, a: int, b: int)
    requires forall p :: p in ps <==> p in qs
    requires EffectiveExp(minted, ps, a) && EffectiveExp(minted, qs, b)
    ensures a == b
  {
    hide ParseExp;
  }

  /** The order of appending, and repetitions, do not matter. */
  lemma {:induction false} OrderIsIrrelevant(kr: Keyring, claims: Claims, minted: int, ps: seq<Bytes>,
                                             qs: seq<Bytes>, now: int)
    requires Faithful(kr.codec) && IsI64(minted)
    requires forall p :: p in ps <==> p in qs
    ensures Unpack(kr, now, AppendAll(kr.mac, Pack(kr, claims, minted), ps))
            == Unpack(kr, now, AppendAll(kr.mac, Pack(kr, claims, minted), qs))
  {
    Attenuates(kr, claims, minted, ps, now);
    Attenuates(kr, claims, minted, qs, now);
    hide Unpack, Pack, AppendAll, ParseExp, EffectiveExp, Faithful;
    if !exists p | p in ps :: ParseExp(p).None? {
      var a :| EffectiveExp(minted, ps, a)
               && Unpack(kr, now, AppendAll(kr.mac, Pack(kr, claims, minted), ps))
                  == if a <= now then Err(Expired) else Ok((claims, a));
      var b :| EffectiveExp(minted, qs, b)
               && Unpack(kr, now, AppendAll(kr.mac, Pack(kr, claims, minted), qs))
                  == if b <= now then Err(Expired) else Ok((claims, b));
      EffectiveIsUnique(minted, ps, qs, a, b);
    }
  }

  /** A signed token without any caveat: nothing this code mints, and rejected for want of an
      expiry, which anybody can append. */
  predicate Bare(kr: Keyring, m: Macaroon) {
    m.caveats == [] && Signed(kr, m)
  }

  predicate AllSatisfied(caveats: seq<Caveat>) {
    forall c | c in caveats :: Satisfied(c)
  }

  lemma {:induction false} SatisfiedAfter(caveats: seq<Caveat>, c: Caveat)
    ensures AllSatisfied(caveats + [c]) <==> AllSatisfied(caveats) && Satisfied(c)
  {
    var all := caveats + [c];
    assert all[|caveats|] == c && forall bad | bad in caveats :: bad in all;
    assert forall bad | bad in all :: bad in caveats || bad == c;
    hide Satisfied;
  }

  lemma {:induction false} EarliestAfter(caveats: seq<Caveat>, c: Caveat)
    requires AllSatisfied(caveats) && Satisfied(c)
    ensures Earliest(caveats).None? <==> caveats == []
    ensures Earliest(caveats + [c])
            == Some(var exp := ParseExp(c.condition).value;
                    if caveats == [] || exp < Earliest(caveats).value then exp else Earliest(caveats).value)
  {
    EarliestMeans(caveats);
    assert caveats != [] ==> caveats[0] in caveats;
    assert (caveats + [c])[..|caveats|] == caveats;
    hide ParseExp, IsEarliest;
  }

  /** Appending revives a rejected token, forged or not, now or later, exactly when it is bare
      and the caveat is its first expiry; short of a collision of the MAC between the token's
      signature and the honest one. */
  lemma {:induction false} RevivesExactly(kr: Keyring, now: int, m: Macaroon, condition: Bytes, later: int)
    requires Unpack(kr, now, m).Err? && now <= later
    requires var honest := Chain(kr.mac, Keyed(kr.mac, kr.root, m.identifier), m.caveats);
             Keyed(kr.mac, m.signature, condition) == Keyed(kr.mac, honest, condition) ==> m.signature == honest
    ensures Unpack(kr, later, Append(kr.mac, m, condition)).Ok? <==>
              && Bare(kr, m)
              && ParseExp(condition).Some? && ParseExp(condition).value > later
              && Decoded(kr.codec, m.identifier).Some?
  {
    var c := FirstParty(condition);
    var m' := Append(kr.mac, m, condition);
    ChainSnoc(kr.mac, Keyed(kr.mac, kr.root, m.identifier), m.caveats, c);
    SatisfiedAfter(m.caveats, c);
    if AllSatisfied(m.caveats) && Satisfied(c) {
      EarliestAfter(m.caveats, c);
    }
    assert (exists bad | bad in m.caveats :: !Satisfied(bad)) <==> !AllSatisfied(m.caveats);
    assert (exists bad | bad in m'.caveats :: !Satisfied(bad)) <==> !AllSatisfied(m'.caveats);
    hide AllSatisfied, Earliest;
    hide Chain, ParseExp;
  }

  /** So no token that comes from a minted one is ever revived. */
  lemma {:induction false} MintedNeverRevives(kr: Keyring, now: int, claims: Claims, minted: int, ps: seq<Bytes>,
                                              more: seq<Bytes>, later: int)
    requires Faithful(kr.codec) && IsI64(minted) && now <= later
    requires Unpack(kr, now, AppendAll(kr.mac, Pack(kr, claims, minted), ps)).Err?
    ensures Unpack(kr, later, AppendAll(kr.mac, Pack(kr, claims, minted), ps + more)).Err?
  {
    hide Unpack, Pack, AppendAll, ParseExp, EffectiveExp, Faithful;
    Attenuates(kr, claims, minted, ps, now);
    Attenuates(kr, claims, minted, ps + more, later);
    var r := Unpack(kr, now, AppendAll(kr.mac, Pack(kr, claims, minted), ps));
    var r' := Unpack(kr, later, AppendAll(kr.mac, Pack(kr, claims, minted), ps + more));
    if p :| p in ps && ParseExp(p).None? {
      assert p in ps + more;
    } else if !exists p | p in ps + more :: ParseExp(p).None? {
      var a :| EffectiveExp(minted, ps, a) && r == if a <= now then Err(Expired) else Ok((claims, a));
      var b :| EffectiveExp(minted, ps + more, b) && r' == if b <= later then Err(Expired) else Ok((claims, b));
      MoreIsEarlier(minted, ps, more, a, b);
    }
  }

  lemma {:induction false} MoreIsEarlier(minted: int, ps: seq<Bytes>, more: seq<Bytes>, a: int, b: int)
    requires EffectiveExp(minted, ps, a) && EffectiveExp(minted, ps + more, b)
    ensures b <= a
  {
    hide ParseExp;
    assert forall p | p in ps :: p in ps + more;
  }

  /** Appending narrows: what an accepted token still grants after another caveat is the same
      claims for no longer. */
  lemma {:induction false} OnlyNarrows(kr: Keyring, now: int, m: Macaroon, condition: Bytes)
    requires Unpack(kr, now, m).Ok?
    ensures var r := Unpack(kr, now, Append(kr.mac, m, condition));
            r.Ok? ==> r.value.0 == Unpack(kr, now, m).value.0 && r.value.1 <= Unpack(kr, now, m).value.1
  {
    assert (m.caveats + [FirstParty(condition)])[..|m.caveats|] == m.caveats;
    hide Chain, ParseExp;
  }

  /** A bare token is one append away from being valid. */
  lemma {:induction false} BareRevives(kr: Keyring, now: int, claims: Claims, exp: int)
    requires Faithful(kr.codec) && IsI64(exp) && exp > now
    ensures var m := Create(kr, Encoded(kr.codec, claims));
            && Unpack(kr, now, m) == Err(MissingClaim("exp"))
            && Unpack(kr, now, Append(kr.mac, m, EXP_PREFIX + Print(exp))) == Ok((claims, exp))
  {
    PackMeans(kr, claims, exp);
    var c := FirstParty(EXP_PREFIX + Print(exp));
    SatisfiedAfter([], c);
    EarliestAfter([], c);
    assert [] + [c] == [c];
    assert Decoded(kr.codec, Encoded(kr.codec, claims)) == Some(claims);
    hide ParseExp, Print;
  }

  // ----- Session and sync tokens -----

  function RoleName(role: Role): string {
    match role
    case Admin => "admin"
    case Member => "member"
  }

  function ParseRole(s: string): TokenResult<Role> {
    if s == "admin" then Ok(Admin) else if s == "member" then Ok(Member) else Err(InvalidClaim)
  }

  function DirectionName(direction: Direction): string {
    match direction
    case Push => "push"
    case Pull => "pull"
  }

  function ParseDirection(s: string): TokenResult<Direction> {
    if s == "push" then Ok(Push) else if s == "pull" then Ok(Pull) else Err(InvalidClaim)
  }

  datatype SessionContext = SessionContext(user: string, email: string, org: string, role: Role, exp: int)
  datatype SyncContext = SyncContext(user: string, org: string, database: string, direction: Direction, exp: int)

  function SessionClaims(user: string, email: string, org: string, role: Role): Claims {
    Claims("session", user, org, email, RoleName(role), "", "")
  }

  function SyncClaims(user: string, org: string, database: string, direction: Direction): Claims {
    Claims("sync", user, org, "", "", database, DirectionName(direction))
  }

  function MintSession(kr: Keyring, user: string, email: string, org: string, role: Role, now: int,
                       ttl: int): Macaroon {
    Pack(kr, SessionClaims(user, email, org, role), WrapI64(now + ttl))
  }

  function MintSync(kr: Keyring, user: string, org: string, database: string, direction: Direction, now: int,
                    ttl: int): Macaroon {
    Pack(kr, SyncClaims(user, org, database, direction), WrapI64(now + ttl))
  }

  function SessionOf(claims: Claims, exp: int): TokenResult<SessionContext> {
    if claims.purpose != "session" then Err(WrongPurpose)
    else
      match ParseRole(claims.role)
      case Err(e) => Err(e)
      case Ok(role) =>
        if claims.userId == "" then Err(MissingClaim("user"))
        else if claims.email == "" then Err(MissingClaim("email"))
        else if claims.orgId == "" then Err(MissingClaim("org"))
        else Ok(SessionContext(claims.userId, claims.email, claims.orgId, role, exp))
  }

  function SyncOf(claims: Claims, exp: int): TokenResult<SyncContext> {
    if claims.purpose != "sync" then Err(WrongPurpose)
    else
      match ParseDirection(claims.direction)
      case Err(e) => Err(e)
      case Ok(direction) =>
        if claims.userId == "" then Err(MissingClaim("user"))
        else if claims.orgId == "" then Err(MissingClaim("org"))
        else if claims.databaseId == "" then Err(MissingClaim("database"))
        else Ok(SyncContext(claims.userId, claims.orgId, claims.databaseId, direction, exp))
  }

  function VerifySession(kr: Keyring, now: int, m: Macaroon): TokenResult<SessionContext> {
    match Unpack(kr, now, m)
    case Err(e) => Err(e)
    case Ok((claims, exp)) => SessionOf(claims, exp)
  }

  function VerifySync(kr: Keyring, now: int, m: Macaroon): TokenResult<SyncContext> {
    match Unpack(kr, now, m)
    case Err(e) => Err(e)
    case Ok((claims, exp)) => SyncOf(claims, exp)
  }

  /** A minted token: the claims, one `exp=` caveat, and the MAC of that under the MAC of the
      claims under the root key. */
  ghost predicate Minted(kr: Keyring, m: Macaroon, claims: Claims, exp: int) {
    var condition: Bytes := [101, 120, 112, 61] + Print(exp);
    && m.identifier == (kr.codec.encode)(claims)
    && m.caveats == [FirstParty(condition)]
    && m.signature == (kr.mac)((kr.mac)(kr.root, (kr.codec.encode)(claims)), condition)
  }

  lemma {:induction false} MintsExactly(kr: Keyring, user: string, email: string, org: string, database: string,
                                        role: Role, direction: Direction, now: int, ttl: int)
    ensures Minted(kr, MintSession(kr, user, email, org, role, now, ttl),
                   Claims("session", user, org, email, if role == Admin then "admin" else "member", "", ""),
                   WrapI64(now + ttl))
    ensures Minted(kr, MintSync(kr, user, org, database, direction, now, ttl),
                   Claims("sync", user, org, "", "", database, if direction == Push then "push" else "pull"),
                   WrapI64(now + ttl))
  {
    assert forall c: Caveat :: [] + [c] == [c];
    hide Print, WrapI64;
  }

  /** The token is untouched, in force and for this purpose. */
  ghost predicate Accepted(kr: Keyring, now: int, m: Macaroon, purpose: string) {
    && m == AppendAll(kr.mac, Create(kr, m.identifier), Conditions(m.caveats))
    && m.caveats != []
    && (forall c | c in m.caveats :: c.FirstParty? && ParseExp(c.condition).Some? && ParseExp(c.condition).value > now)
    && (kr.codec.decode)(m.identifier).Some?
    && (kr.codec.decode)(m.identifier).value.purpose == purpose
  }

  lemma {:induction false} UnpackExactly(kr: Keyring, now: int, m: Macaroon)
    ensures Unpack(kr, now, m).Ok? <==>
              && m == AppendAll(kr.mac, Create(kr, m.identifier), Conditions(m.caveats))
              && m.caveats != []
              && (forall c | c in m.caveats ::
                    c.FirstParty? && ParseExp(c.condition).Some? && ParseExp(c.condition).value > now)
              && (kr.codec.decode)(m.identifier).Some?
    ensures Unpack(kr, now, m).Ok? ==> Unpack(kr, now, m).value.0 == (kr.codec.decode)(m.identifier).value
    ensures Unpack(kr, now, m).Ok? ==> IsEarliest(m.caveats, Unpack(kr, now, m).value.1)
  {
    var links := Verdict(kr, now, m);
    Unforgeable(kr, now, m);
    HonestSignature(kr, m.identifier, m.caveats);
    EarliestMeans(m.caveats);
    hide AppendAll, Conditions, ParseExp, Links, Earliest, Chain, IsEarliest;
  }

  /** Of all tokens there can be, those accepted for a session are exactly the untouched ones in
      force whose claims are a session's, with a known role and no empty field; and then the
      result is those claims with the earliest expiry. */
  lemma {:induction false} SessionExactly(kr: Keyring, now: int, m: Macaroon)
    ensures var r := VerifySession(kr, now, m);
            && (r.Ok? <==>
                  && Accepted(kr, now, m, "session")
                  && (var c := (kr.codec.decode)(m.identifier).value;
                      c.role in {"admin", "member"} && c.userId != "" && c.email != "" && c.orgId != ""))
            && (r.Ok? ==>
                  && (var c := (kr.codec.decode)(m.identifier).value;
                      r.value == SessionContext(c.userId, c.email, c.orgId, if c.role == "admin" then Admin else Member,
                                                r.value.exp))
                  && IsEarliest(m.caveats, r.value.exp))
  {
    UnpackExactly(kr, now, m);
    hide AppendAll, Conditions, ParseExp, Unpack, IsEarliest;
  }

  /** The error for every other token: that of the token itself, or the first of these that
      fails. */
  lemma {:induction false} SessionRefusal(kr: Keyring, now: int, m: Macaroon)
    ensures var token := Unpack(kr, now, m);
            var r := VerifySession(kr, now, m);
            if token.Err? then r == Err(token.error)
            else
              var c := token.value.0;
              if c.purpose != "session" then r == Err(WrongPurpose)
              else if c.role !in {"admin", "member"} then r == Err(InvalidClaim)
              else if c.userId == "" then r == Err(MissingClaim("user"))
              else if c.email == "" then r == Err(MissingClaim("email"))
              else if c.orgId == "" then r == Err(MissingClaim("org"))
              else r.Ok?
  {
    hide Unpack;
  }

  lemma {:induction false} SyncRefusal(kr: Keyring, now: int, m: Macaroon)
    ensures var token := Unpack(kr, now, m);
            var r := VerifySync(kr, now, m);
            if token.Err? then r == Err(token.error)
            else
              var c := token.value.0;
              if c.purpose != "sync" then r == Err(WrongPurpose)
              else if c.direction !in {"push", "pull"} then r == Err(InvalidClaim)
              else if c.userId == "" then r == Err(MissingClaim("user"))
              else if c.orgId == "" then r == Err(MissingClaim("org"))
              else if c.databaseId == "" then r == Err(MissingClaim("database"))
              else r.Ok?
  {
    hide Unpack;
  }

  /** The same for a sync. */
  lemma {:induction false} SyncExactly(kr: Keyring, now: int, m: Macaroon)
    ensures var r := VerifySync(kr, now, m);
            && (r.Ok? <==>
                  && Accepted(kr, now, m, "sync")
                  && (var c := (kr.codec.decode)(m.identifier).value;
                      c.direction in {"push", "pull"} && c.userId != "" && c.orgId != "" && c.databaseId != ""))
            && (r.Ok? ==>
                  && (var c := (kr.codec.decode)(m.identifier).value;
                      r.value == SyncContext(c.userId, c.orgId, c.databaseId,
                                             if c.direction == "push" then Push else Pull, r.value.exp))
                  && IsEarliest(m.caveats, r.value.exp))
  {
    UnpackExactly(kr, now, m);
    hide AppendAll, Conditions, ParseExp, Unpack, IsEarliest;
  }

  /** A session token, however its holders attenuated it: verification accepts it exactly when
      every appended caveat is an expiry, the earliest expiry is still ahead and no field is
      empty; and then it returns the minted fields and that expiry. */
  lemma {:induction false} SessionRoundTrip(kr: Keyring, user: string, email: string, org: string, role: Role,
                                            now: int, ttl: int, predicates: seq<Bytes>, later: int)
    requires Faithful(kr.codec)
    ensures var r := VerifySession(kr, later, AppendAll(kr.mac, MintSession(kr, user, email, org, role, now, ttl), predicates));
            && (r.Ok? <==>
                  && (forall p | p in predicates :: ParseExp(p).Some? && ParseExp(p).value > later)
                  && WrapI64(now + ttl) > later
                  && user != "" && email != "" && org != "")
            && (r.Ok? ==>
                  && r.value == SessionContext(user, email, org, role, r.value.exp)
                  && EffectiveExp(WrapI64(now + ttl), predicates, r.value.exp))
  {
    hide Unpack, Pack, AppendAll, ParseExp, EffectiveExp, Faithful, WrapI64;
    var minted := WrapI64(now + ttl);
    var claims := SessionClaims(user, email, org, role);
    Attenuates(kr, claims, minted, predicates, later);
    LastingExp(minted, predicates, later);
  }

  /** An effective expiry is ahead exactly when all the expiries are. */
  lemma {:induction false} LastingExp(minted: int, predicates: seq<Bytes>, now: int)
    ensures forall exp | (forall p | p in predicates :: ParseExp(p).Some?) && EffectiveExp(minted, predicates, exp) ::
              exp > now <==> minted > now && forall p | p in predicates :: ParseExp(p).value > now
  {
    hide ParseExp;
  }

  /** The same of sync tokens. */
  lemma {:induction false} SyncRoundTrip(kr: Keyring, user: string, org: string, database: string, direction: Direction,
                                         now: int, ttl: int, predicates: seq<Bytes>, later: int)
    requires Faithful(kr.codec)
    ensures var r := VerifySync(kr, later, AppendAll(kr.mac, MintSync(kr, user, org, database, direction, now, ttl), predicates));
            && (r.Ok? <==>
                  && (forall p | p in predicates :: ParseExp(p).Some? && ParseExp(p).value > later)
                  && WrapI64(now + ttl) > later
                  && user != "" && org != "" && database != "")
            && (r.Ok? ==>
                  && r.value == SyncContext(user, org, database, direction, r.value.exp)
                  && EffectiveExp(WrapI64(now + ttl), predicates, r.value.exp))
  {
    hide Unpack, Pack, AppendAll, ParseExp, EffectiveExp, Faithful, WrapI64;
    var minted := WrapI64(now + ttl);
    var claims := SyncClaims(user, org, database, direction);
    Attenuates(kr, claims, minted, predicates, later);
    LastingExp(minted, predicates, later);
  }

  /** Neither kind ever passes for the other, whatever is appended. */
  lemma {:induction false} PurposesAreApart(kr: Keyring, user: string, email: string, org: string, role: Role,
                                            database: string, direction: Direction, now: int, ttl: int,
                                            predicates: seq<Bytes>, later: int)
    requires Faithful(kr.codec)
    ensures VerifySync(kr, later, AppendAll(kr.mac, MintSession(kr, user, email, org, role, now, ttl), predicates)).Err?
    ensures VerifySession(kr, later, AppendAll(kr.mac, MintSync(kr, user, org, database, direction, now, ttl), predicates)).Err?
  {
    hide Unpack, Pack, AppendAll, ParseExp, EffectiveExp, Faithful, WrapI64;
    var minted := WrapI64(now + ttl);
    Attenuates(kr, SessionClaims(user, email, org, role), minted, predicates, later);
    Attenuates(kr, SyncClaims(user, org, database, direction), minted, predicates, later);
  }
}
