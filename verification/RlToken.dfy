/** The signed iframe-session token: `ifs:{discord}:{guild}:{role}:{ro}:{exp}:{signature}`. */
module RlToken {
  import opened Text

  const PREFIX := "ifs:"
  const TTL_SECS := 3600

  datatype Session = Session(discordId: string, guildId: string, roleId: string, readOnly: bool)

  function Colon(a: string, b: string): string {
    a + ":" + b
  }

  function Payload(d: string, g: string, r: string, ro: string, exp: string): string {
    Colon(Colon(Colon(Colon(d, g), r), ro), exp)
  }

  function Flag(readOnly: bool): string {
    if readOnly then "1" else "0"
  }

  /** `hmac(secret, payload)` is the hex signature; nothing is assumed of it. */
  function Mint(s: Session, secret: string, now: int, hmac: (string, string) -> string): string {
    var payload := Payload(s.discordId, s.guildId, s.roleId, Flag(s.readOnly), ShowInt(now + TTL_SECS));
    PREFIX + Colon(payload, hmac(secret, payload))
  }

  function Verify(token: string, secret: string, now: int, hmac: (string, string) -> string): Option<Session> {
    if !(PREFIX <= token) then None
    else
      var parts := SplitN(token[|PREFIX|..], ':', 6);
      if |parts| != 6 then None
      else
        var ro, exp, sig := parts[3], parts[4], parts[5];
        if ro != "0" && ro != "1" then None
        else
          var expiry := ParseI64(exp);
          if expiry == None || now > expiry.value then None
          else if sig != hmac(secret, Payload(parts[0], parts[1], parts[2], ro, exp)) then None
          else Some(Session(parts[0], parts[1], parts[2], ro == "1"))
  }

  // ---- comparison in time independent of the contents ----

  /** OR-accumulating the XORs of all byte pairs is zero exactly when the sequences are equal. */
  method ConstantTimeEq(a: seq<bv8>, b: seq<bv8>) returns (equal: bool)
    ensures equal <==> a == b
  {
    if |a| != |b| {
      return false;
    }
    var diff: bv8 := 0;
    for i := 0 to |a|
      invariant diff == 0 <==> a[..i] == b[..i]
    {
      assert a[..i + 1] == a[..i] + [a[i]] && b[..i + 1] == b[..i] + [b[i]];
      OrXorZero(diff, a[i], b[i]);
      diff := diff | (a[i] ^ b[i]);
    }
    assert a[..|a|] == a && b[..|b|] == b;
    return diff == 0;
  }

  lemma OrXorZero(d: bv8, x: bv8, y: bv8)
    ensures d | (x ^ y) == 0 <==> d == 0 && x == y
  {
  }

  /** Verification as it runs; `utf8` is any injective encoding of text as bytes. */
  method VerifyIframeSession(token: string, secret: string, now: int, hmac: (string, string) -> string,
                             utf8: string -> seq<bv8>) returns (r: Option<Session>)
    requires forall x, y :: utf8(x) == utf8(y) ==> x == y
    ensures r == Verify(token, secret, now, hmac)
  {
    if !(PREFIX <= token) {
      return None;
    }
    var parts := SplitN(token[|PREFIX|..], ':', 6);
    if |parts| != 6 || (parts[3] != "0" && parts[3] != "1") {
      return None;
    }
    var expiry := ParseI64(parts[4]);
    if expiry == None || now > expiry.value {
      return None;
    }
    var expected := hmac(secret, Payload(parts[0], parts[1], parts[2], parts[3], parts[4]));
    var matches := ConstantTimeEq(utf8(parts[5]), utf8(expected));
    if !matches {
      return None;
    }
    return Some(Session(parts[0], parts[1], parts[2], parts[3] == "1"));
  }

  // ---- what a token proves ----

  predicate Plain(s: Session) {
    ':' !in s.discordId && ':' !in s.guildId && ':' !in s.roleId
  }

  lemma PayloadThen(d: string, g: string, r: string, ro: string, exp: string, sig: string)
    ensures Colon(Payload(d, g, r, ro, exp), sig) == Colon(d, Colon(g, Colon(r, Colon(ro, Colon(exp, sig)))))
  {
  }

  lemma SplitColon(head: string, tail: string, n: nat)
    requires n > 1 && ':' !in head
    ensures SplitN(Colon(head, tail), ':', n) == [head] + SplitN(tail, ':', n - 1)
  {
    SplitNHead(head, ':', tail, n);
    assert head + ":" + tail == head + [':'] + tail;
  }

  lemma SplitOne(s: string)
    ensures SplitN(s, ':', 1) == [s]
  {
  }

  lemma SplitFields(d: string, g: string, r: string, ro: string, exp: string, sig: string)
    requires ':' !in d && ':' !in g && ':' !in r && ':' !in ro && ':' !in exp
    ensures SplitN(Colon(Payload(d, g, r, ro, exp), sig), ':', 6) == [d, g, r, ro, exp, sig]
  {
    hide Colon, Payload, SplitN;
    PayloadThen(d, g, r, ro, exp, sig);
    SplitOne(sig);
    var t4 := Colon(exp, sig);
    var t3 := Colon(ro, t4);
    var t2 := Colon(r, t3);
    var t1 := Colon(g, t2);
    SplitColon(exp, sig, 2);
    SplitColon(ro, t4, 3);
    assert SplitN(t3, ':', 3) == [ro, exp, sig];
    SplitColon(r, t3, 4);
    SplitColon(g, t2, 5);
    assert SplitN(t1, ':', 5) == [g, r, ro, exp, sig];
    SplitColon(d, t1, 6);
  }

  /** Splitting off a piece can be undone, and the piece holds no colon. */
  lemma SplitStep(s: string, n: nat) returns (head: string, tail: string)
    requires n > 1 && |SplitN(s, ':', n)| > 1
    ensures SplitN(s, ':', n) == [head] + SplitN(tail, ':', n - 1)
    ensures s == Colon(head, tail) && ':' !in head
  {
    var k := IndexOf(s, ':');
    head, tail := s[..k], s[k + 1..];
    assert s == s[..k] + [s[k]] + s[k + 1..];
  }

  /** Six pieces determine the text they came from, and all but the last are free of colons. */
  lemma SixPieces(s: string)
    requires |SplitN(s, ':', 6)| == 6
    ensures var p := SplitN(s, ':', 6);
      && s == Colon(Payload(p[0], p[1], p[2], p[3], p[4]), p[5])
      && ':' !in p[0] && ':' !in p[1] && ':' !in p[2]
  {
    hide Colon, Payload, SplitN;
    var d, s1 := SplitStep(s, 6);
    var g, s2 := SplitStep(s1, 5);
    var r, s3 := SplitStep(s2, 4);
    var ro, s4 := SplitStep(s3, 3);
    var exp, sig := SplitStep(s4, 2);
    SplitOne(sig);
    assert SplitN(s, ':', 6) == [d, g, r, ro, exp, sig];
    PayloadThen(d, g, r, ro, exp, sig);
  }

  /** An accepted token is a signature over exactly the fields returned and an expiry not yet past, and nothing else. */
  lemma VerifySound(token: string, secret: string, now: int, hmac: (string, string) -> string)
    ensures Verify(token, secret, now, hmac).Some? ==>
      var s := Verify(token, secret, now, hmac).value;
      && Plain(s)
      && exists exp ::
        && ParseI64(exp).Some? && now <= ParseI64(exp).value
        && var payload := Payload(s.discordId, s.guildId, s.roleId, Flag(s.readOnly), exp);
           token == PREFIX + Colon(payload, hmac(secret, payload))
  {
    hide Colon, Payload, SplitN;
    if Verify(token, secret, now, hmac).Some? {
      var rest := token[|PREFIX|..];
      SixPieces(rest);
      var p := SplitN(rest, ':', 6);
      assert token == PREFIX + rest;
      assert ParseI64(p[4]).Some?;
    }
  }

  /** A minted token verifies to the same session up to its expiry and to nothing after it, for colon-free ids. */
  lemma PlainRoundTrip(s: Session, secret: string, now: int, later: int, hmac: (string, string) -> string)
    requires Plain(s) && IsI64(now + TTL_SECS)
    ensures Verify(Mint(s, secret, now, hmac), secret, later, hmac) == if later <= now + TTL_SECS then Some(s) else None
  {
    hide Colon, Payload, SplitN;
    var exp := ShowInt(now + TTL_SECS);
    ShowParse(now + TTL_SECS);
    ShowIntBare(now + TTL_SECS);
    var ro := Flag(s.readOnly);
    var payload := Payload(s.discordId, s.guildId, s.roleId, ro, exp);
    var sig := hmac(secret, payload);
    SplitFields(s.discordId, s.guildId, s.roleId, ro, exp, sig);
    var token := Mint(s, secret, now, hmac);
    assert token == PREFIX + Colon(payload, sig);
    assert token[|PREFIX|..] == Colon(payload, sig);
  }

  /** The round trip holds exactly for colon-free ids that have not expired. */
  lemma RoundTripExactly(s: Session, secret: string, now: int, later: int, hmac: (string, string) -> string)
    requires IsI64(now + TTL_SECS)
    ensures Verify(Mint(s, secret, now, hmac), secret, later, hmac) == Some(s) <==> Plain(s) && later <= now + TTL_SECS
  {
    if Plain(s) {
      PlainRoundTrip(s, secret, now, later, hmac);
    } else if Verify(Mint(s, secret, now, hmac), secret, later, hmac).Some? {
      VerifySound(Mint(s, secret, now, hmac), secret, later, hmac);
    }
  }

  /** Distinct sessions or expiries never share a signed payload. */
  lemma PayloadInjective(s: Session, exp: int, s': Session, exp': int)
    requires Plain(s) && Plain(s') && IsI64(exp) && IsI64(exp')
    requires Payload(s.discordId, s.guildId, s.roleId, Flag(s.readOnly), ShowInt(exp))
          == Payload(s'.discordId, s'.guildId, s'.roleId, Flag(s'.readOnly), ShowInt(exp'))
    ensures s == s' && exp == exp'
  {
    ShowParse(exp);
    ShowIntBare(exp);
    ShowParse(exp');
    ShowIntBare(exp');
    SplitFields(s.discordId, s.guildId, s.roleId, Flag(s.readOnly), ShowInt(exp), "");
    SplitFields(s'.discordId, s'.guildId, s'.roleId, Flag(s'.readOnly), ShowInt(exp'), "");
    var fields := [s.discordId, s.guildId, s.roleId, Flag(s.readOnly), ShowInt(exp), ""];
    var fields' := [s'.discordId, s'.guildId, s'.roleId, Flag(s'.readOnly), ShowInt(exp'), ""];
    assert fields == fields';
    assert fields[0] == fields'[0] && fields[1] == fields'[1] && fields[2] == fields'[2];
    assert fields[3] == fields'[3] && fields[4] == fields'[4];
    assert Flag(s.readOnly)[0] == Flag(s'.readOnly)[0];
  }

  /** A token's own words: the prefix, the five fields, the signature over them, colons between; good for an hour. */
  lemma MintedForAnHour(s: Session, secret: string, now: int, later: int, hmac: (string, string) -> string)
    ensures var fields := s.discordId + ":" + s.guildId + ":" + s.roleId + ":" + (if s.readOnly then "1" else "0") + ":"
        + ShowInt(now + 3600);
      Mint(s, secret, now, hmac) == "ifs:" + fields + ":" + hmac(secret, fields)
    ensures Plain(s) && IsI64(now + 3600) && later > now + 3600 ==>
      Verify(Mint(s, secret, now, hmac), secret, later, hmac) == None
  {
    hide Verify;
    var fields := s.discordId + ":" + s.guildId + ":" + s.roleId + ":" + (if s.readOnly then "1" else "0") + ":"
      + ShowInt(now + 3600);
    assert fields == Payload(s.discordId, s.guildId, s.roleId, Flag(s.readOnly), ShowInt(now + 3600));
    assert "ifs:" + fields + ":" + hmac(secret, fields) == "ifs:" + (fields + ":" + hmac(secret, fields));
    if Plain(s) && IsI64(now + 3600) {
      PlainRoundTrip(s, secret, now, later, hmac);
    }
  }
}
