/** Signed session tokens (`agent/src/auth.rs`) and share tokens (`agent/src/preview_token.rs`).

    The keyed hash is an arbitrary function from payloads to byte strings; both kinds of token are signed
    with the same key, so one function `mac` stands for both. The clock is a non-negative `i64` number of
    seconds; the times inside a token are any `i64`.
 */
module Tokens {
  import opened Common
  import opened Text

  type byte = b: int | 0 <= b < 256
  type I64 = t: int | -0x8000_0000_0000_0000 <= t <= 0x7FFF_FFFF_FFFF_FFFF
  type Clock = t: int | 0 <= t <= 0x7FFF_FFFF_FFFF_FFFF
  type Mac = string -> seq<byte>

  const SESSION_TTL_SECS: int := 2_592_000

  // ---------- Hexadecimal ----------

  function NibbleChar(d: nat): (c: char)
    requires d < 16
    ensures NibbleValue(c) == Some(d) && c != '.'
  {
    if d < 10 then '0' + d as char else 'a' + (d - 10) as char
  }

  function NibbleValue(c: char): (d: Option<nat>)
    ensures d.Some? ==> d.value < 16
  {
    if '0' <= c <= '9' then Some((c - '0') as nat)
    else if 'a' <= c <= 'f' then Some((c - 'a') as nat + 10)
    else if 'A' <= c <= 'F' then Some((c - 'A') as nat + 10)
    else None
  }

  /** The digits of either case, and no other character, have a value. */
  lemma NibbleDigits(c: char)
    ensures var d := NibbleValue(c);
      if d.Some? then c == "0123456789abcdef"[d.value] || c == "0123456789ABCDEF"[d.value]
      else c !in "0123456789abcdef" && c !in "0123456789ABCDEF"
  {
  }

  /** `hex::encode` */
  function HexEncode(bytes: seq<byte>): string {
    if bytes == [] then "" else [NibbleChar(bytes[0] / 16), NibbleChar(bytes[0] % 16)] + HexEncode(bytes[1..])
  }

  /** `hex::decode`: an even number of digits of either case. */
  function HexDecode(s: string): Option<seq<byte>> {
    if s == "" then Some([])
    else if |s| == 1 then None
    else
      var hi, lo, rest := NibbleValue(s[0]), NibbleValue(s[1]), HexDecode(s[2..]);
      if hi.None? || lo.None? || rest.None? then None else Some([hi.value * 16 + lo.value] + rest.value)
  }

  lemma {:induction false} HexRoundTrip(bytes: seq<byte>)
    ensures HexDecode(HexEncode(bytes)) == Some(bytes)
    ensures !Contains(HexEncode(bytes), '.')
  {
    hide NibbleChar, NibbleValue;
    if bytes != [] {
      HexRoundTrip(bytes[1..]);
      var s := HexEncode(bytes);
      assert s[2..] == HexEncode(bytes[1..]);
      assert s[0] == NibbleChar(bytes[0] / 16) && s[1] == NibbleChar(bytes[0] % 16);
      assert [bytes[0]] + bytes[1..] == bytes;
      assert forall i :: 2 <= i < |s| ==> s[i] == s[2..][i - 2];
    }
  }

  lemma {:induction false} HexHasNoDot(s: string)
    requires HexDecode(s).Some?
    ensures !Contains(s, '.')
  {
    if |s| >= 2 {
      HexHasNoDot(s[2..]);
      assert forall i :: 2 <= i < |s| ==> s[i] == s[2..][i - 2];
    }
  }

  // ---------- Session tokens ----------

  /** What subtraction gives in an `i64` that wraps around. */
  function WrapI64(x: int): (r: I64)
    ensures -I64_MAX - 1 <= x <= I64_MAX ==> r == x
    ensures (x - r) / 0x1_0000_0000_0000_0000 * 0x1_0000_0000_0000_0000 == x - r
  {
    (x + I64_MAX + 1) % (2 * (I64_MAX + 1)) - I64_MAX - 1
  }

  function SessionPayload(id: string, issuedAt: int): string {
    id + "." + DecimalInt(issuedAt)
  }

  function SignSession(mac: Mac, id: string, issuedAt: Clock): string {
    SessionPayload(id, issuedAt) + "." + HexEncode(mac(SessionPayload(id, issuedAt)))
  }

  function VerifySession(mac: Mac, token: string, now: Clock): Option<string> {
    var parts := Fields(token, '.', 0);
    if |parts| != 3 then None
    else
      var issuedAt, sig := ParseI64(parts[1]), HexDecode(parts[2]);
      if issuedAt.None? || WrapI64(now - issuedAt.value) > SESSION_TTL_SECS || sig.None? then None
      else if mac(SessionPayload(parts[0], issuedAt.value)) != sig.value then None
      else Some(parts[0])
  }

  // ---------- Share tokens ----------

  function SharePayload(host: string, preview: string, exp: int): string {
    "share." + host + "." + preview + "." + DecimalInt(exp)
  }

  function SignShareToken(mac: Mac, host: string, preview: string, exp: I64): string {
    SharePayload(host, preview, exp) + "." + HexEncode(mac(SharePayload(host, preview, exp)))
  }

  function VerifyShareToken(mac: Mac, token: string, now: Clock): Option<(string, string)> {
    var parts := Fields(token, '.', 5);
    if |parts| != 5 || parts[0] != "share" then None
    else
      var exp, sig := ParseI64(parts[3]), HexDecode(parts[4]);
      if exp.None? || now > exp.value || sig.None? then None
      else if mac(SharePayload(parts[1], parts[2], exp.value)) != sig.value then None
      else Some((parts[1], parts[2]))
  }

  // ---------- Signing and verifying ----------

  lemma SessionFields(id: string, issuedAt: int, sig: seq<byte>)
    requires !Contains(id, '.')
    ensures Fields(SessionPayload(id, issuedAt) + "." + HexEncode(sig), '.', 0) == [id, DecimalInt(issuedAt), HexEncode(sig)]
  {
    var hex := HexEncode(sig);
    DecimalIntHasNo(issuedAt, '.');
    HexRoundTrip(sig);
    assert SessionPayload(id, issuedAt) + "." + hex == id + ['.'] + (DecimalInt(issuedAt) + ['.'] + hex);
    FieldsOfJoin(id, '.', DecimalInt(issuedAt) + ['.'] + hex, 0);
    FieldsOfJoin(DecimalInt(issuedAt), '.', hex, 0);
    FieldsOfOne(hex, '.', 0);
  }

  function Dots(s: string): nat {
    if s == "" then 0 else (if s[0] == '.' then 1 else 0) + Dots(s[1..])
  }

  lemma {:induction false} FieldCount(s: string)
    ensures |Fields(s, '.', 0)| == Dots(s) + 1
  {
    if s != "" {
      FieldCount(s[1..]);
    }
  }

  lemma {:induction false} LimitedFieldCount(s: string, limit: nat)
    requires limit > 0
    ensures |Fields(s, '.', limit)| <= Min(limit, Dots(s) + 1)
  {
    if s != "" && limit > 1 {
      LimitedFieldCount(s[1..], if s[0] == '.' then limit - 1 else limit);
    }
  }

  lemma {:induction false} DotsOfJoin(a: string, b: string)
    ensures Dots(a + b) == Dots(a) + Dots(b)
  {
    if a == "" {
      assert a + b == b;
    } else {
      assert (a + b)[1..] == a[1..] + b;
      DotsOfJoin(a[1..], b);
    }
  }

  lemma {:induction false} NoDots(s: string)
    ensures Dots(s) == 0 <==> !Contains(s, '.')
  {
    if s != "" {
      NoDots(s[1..]);
      assert forall i :: 1 <= i < |s| ==> s[i] == s[1..][i - 1];
      assert Contains(s[1..], '.') ==> Contains(s, '.') by {
        if i :| 0 <= i < |s| - 1 && s[1..][i] == '.' {
          assert s[i + 1] == '.';
        }
      }
    }
  }

  /** Verifying what was signed gives the id back until its time is up; both conditions are needed, and no
      others: a session id with a dot in it makes a token that never verifies. */
  lemma SessionRoundTrip(mac: Mac, id: string, issuedAt: Clock, now: Clock)
    ensures VerifySession(mac, SignSession(mac, id, issuedAt), now)
      == if !Contains(id, '.') && now - issuedAt <= 2_592_000 then Some(id) else None
  {
    hide Contains, DecimalInt, HexEncode, HexDecode, ParseI64, Fields, Dots;
    var sig := mac(SessionPayload(id, issuedAt));
    var token := SignSession(mac, id, issuedAt);
    if !Contains(id, '.') {
      SessionFields(id, issuedAt, sig);
      ParseDecimalInt(issuedAt);
      HexRoundTrip(sig);
    } else {
      NoDots(id);
      FieldCount(token);
      var tail := "." + DecimalInt(issuedAt);
      assert token == id + (tail + ("." + HexEncode(sig)));
      DotsOfJoin(id, tail + ("." + HexEncode(sig)));
      DotsOfJoin(tail, "." + HexEncode(sig));
      DotThen(DecimalInt(issuedAt));
      DotThen(HexEncode(sig));
    }
  }

  lemma ShareFields(host: string, preview: string, exp: int, sig: seq<byte>)
    requires !Contains(host, '.') && !Contains(preview, '.')
    ensures Fields(SharePayload(host, preview, exp) + "." + HexEncode(sig), '.', 5)
      == ["share", host, preview, DecimalInt(exp), HexEncode(sig)]
  {
    hide DecimalInt, HexEncode, HexDecode, Fields;
    var hex, num := HexEncode(sig), DecimalInt(exp);
    DecimalIntHasNo(exp, '.');
    HexRoundTrip(sig);
    var t3 := num + ['.'] + hex;
    var t2 := preview + ['.'] + t3;
    var t1 := host + ['.'] + t2;
    assert SharePayload(host, preview, exp) + "." + hex == "share" + ['.'] + t1;
    FieldsOfJoin("share", '.', t1, 5);
    FieldsOfJoin(host, '.', t2, 4);
    FieldsOfJoin(preview, '.', t3, 3);
    FieldsOfJoin(num, '.', hex, 2);
    FieldsOfOne(hex, '.', 1);
  }

  /** Dots are conserved: those in the fields and one between each two. */
  function FieldDots(parts: seq<string>): nat {
    if parts == [] then 0 else Dots(parts[0]) + FieldDots(parts[1..])
  }

  lemma {:induction false} DotsConserved(s: string, limit: nat)
    ensures FieldDots(Fields(s, '.', limit)) + |Fields(s, '.', limit)| - 1 == Dots(s)
    ensures forall i :: 0 <= i < |Fields(s, '.', limit)| - 1 ==> Dots(Fields(s, '.', limit)[i]) == 0
  {
    if s == "" || limit == 1 {
      assert FieldDots([s]) == Dots(s) + FieldDots([s][1..]);
    } else if s[0] == '.' {
      DotsConserved(s[1..], if limit == 0 then 0 else limit - 1);
    } else {
      DotsConserved(s[1..], limit);
      var rest := Fields(s[1..], '.', limit);
      var head := [s[0]] + rest[0];
      assert head[1..] == rest[0];
      assert ([head] + rest[1..])[1..] == rest[1..];
    }
  }

  /** The same for share tokens: the ids come back exactly until `exp`, and only if neither has a dot in it. */
  lemma ShareRoundTrip(mac: Mac, host: string, preview: string, exp: I64, now: Clock)
    ensures VerifyShareToken(mac, SignShareToken(mac, host, preview, exp), now)
      == if !Contains(host, '.') && !Contains(preview, '.') && now <= exp then Some((host, preview)) else None
  {
    var sig := mac(SharePayload(host, preview, exp));
    var token := SignShareToken(mac, host, preview, exp);
    if !Contains(host, '.') && !Contains(preview, '.') {
      ShareFields(host, preview, exp, sig);
      ParseDecimalInt(exp);
      HexRoundTrip(sig);
    } else {
      ShareDots(host, preview, exp, sig);
      DotsConserved(token, 5);
      var parts := Fields(token, '.', 5);
      if |parts| == 5 {
        LastFieldDots(parts);
        NoDots(parts[4]);
        if HexDecode(parts[4]).Some? {
          HexHasNoDot(parts[4]);
        }
      }
    }
  }

  lemma ShareDots(host: string, preview: string, exp: int, sig: seq<byte>)
    ensures Dots(SharePayload(host, preview, exp) + "." + HexEncode(sig)) == 4 + Dots(host) + Dots(preview)
    ensures Dots(host) == 0 <==> !Contains(host, '.')
    ensures Dots(preview) == 0 <==> !Contains(preview, '.')
  {
    hide Contains, Dots, HexEncode, DecimalInt;
    var hex, num := HexEncode(sig), DecimalInt(exp);
    NoDots(host);
    NoDots(preview);
    HexRoundTrip(sig);
    NoDots(hex);
    DecimalIntHasNo(exp, '.');
    NoDots(num);
    assert SharePayload(host, preview, exp) + "." + hex == "share." + (host + ("." + (preview + ("." + (num + ("." + hex))))));
    DotsOfJoin("share.", host + ("." + (preview + ("." + (num + ("." + hex))))));
    DotsOfJoin(host, "." + (preview + ("." + (num + ("." + hex)))));
    DotsOfJoin(preview, "." + (num + ("." + hex)));
    DotsOfJoin(num, "." + hex);
    DotsOfTag();
    DotThen(preview + ("." + (num + ("." + hex))));
    DotThen(num + ("." + hex));
    DotThen(hex);
  }

  lemma DotThen(s: string)
    ensures Dots("." + s) == 1 + Dots(s)
  {
    assert ("." + s)[1..] == s;
  }

  lemma DotsOfTag()
    ensures Dots("share.") == 1
  {
    assert "share."[1..] == "hare." && "hare."[1..] == "are." && "are."[1..] == "re." && "re."[1..] == "e." && "e."[1..] == ".";
  }

  lemma LastFieldDots(parts: seq<string>)
    requires |parts| == 5 && forall i :: 0 <= i < 4 ==> Dots(parts[i]) == 0
    ensures FieldDots(parts) == Dots(parts[4])
  {
    hide Dots;
    assert parts[4..] == [parts[4]] && [parts[4]][1..] == [];
    assert FieldDots([parts[4]]) == Dots(parts[4]);
    assert parts[3..][1..] == parts[4..];
    assert FieldDots(parts[3..]) == Dots(parts[4]);
    assert parts[2..][1..] == parts[3..];
    assert FieldDots(parts[2..]) == Dots(parts[4]);
    assert parts[1..][1..] == parts[2..];
    assert FieldDots(parts[1..]) == Dots(parts[4]);
  }

  // ---------- The two kinds are never confused ----------

  /** No string is accepted as both, whatever the times. */
  lemma NotBoth(mac: Mac, token: string, t1: Clock, t2: Clock)
    ensures VerifySession(mac, token, t1).None? || VerifyShareToken(mac, token, t2).None?
  {
    FieldCount(token);
    LimitedFieldCount(token, 5);
  }

  /** A signature made for one kind of payload is never one asked for by the other verifier: the payloads of
      the two kinds are different strings. */
  lemma PayloadsDisjoint(id: string, issuedAt: int, host: string, preview: string, exp: int)
    requires !Contains(id, '.')
    ensures SessionPayload(id, issuedAt) != SharePayload(host, preview, exp)
  {
    NoDots(id);
    DecimalIntHasNo(issuedAt, '.');
    NoDots(DecimalInt(issuedAt));
    assert SessionPayload(id, issuedAt) == id + ("." + DecimalInt(issuedAt));
    DotsOfJoin(id, "." + DecimalInt(issuedAt));
    var tail := host + ("." + (preview + ("." + DecimalInt(exp))));
    assert SharePayload(host, preview, exp) == "share." + tail;
    DotsOfJoin("share.", tail);
    DotsOfJoin(host, "." + (preview + ("." + DecimalInt(exp))));
    DotsOfJoin(preview, "." + DecimalInt(exp));
  }

  /** An accepted session token carries the keyed hash of the session payload for exactly the id it returns, and
      is within its time to live unless it claims a time of issue before the epoch. */
  lemma AcceptedSession(mac: Mac, token: string, now: Clock)
    ensures VerifySession(mac, token, now).Some? ==>
      exists issuedAt: I64, sig ::
        && (issuedAt >= 0 ==> now - issuedAt <= 2_592_000)
        && !Contains(VerifySession(mac, token, now).value, '.')
        && sig == mac(SessionPayload(VerifySession(mac, token, now).value, issuedAt))
        && HexDecode(Fields(token, '.', 0)[2]) == Some(sig)
  {
    if VerifySession(mac, token, now).Some? {
      var parts := Fields(token, '.', 0);
      DotsConserved(token, 0);
      NoDots(parts[0]);
      var issuedAt: I64 := ParseI64(parts[1]).value;
      assert mac(SessionPayload(parts[0], issuedAt)) == HexDecode(parts[2]).value;
    }
  }

  /** The same for share tokens, which are accepted up to their time of expiry and never after. */
  lemma AcceptedShare(mac: Mac, token: string, now: Clock)
    ensures VerifyShareToken(mac, token, now).Some? ==>
      exists exp: I64, sig ::
        && now <= exp
        && !Contains(VerifyShareToken(mac, token, now).value.0, '.')
        && !Contains(VerifyShareToken(mac, token, now).value.1, '.')
        && sig == mac(SharePayload(VerifyShareToken(mac, token, now).value.0, VerifyShareToken(mac, token, now).value.1, exp))
        && HexDecode(Fields(token, '.', 5)[4]) == Some(sig)
  {
    if VerifyShareToken(mac, token, now).Some? {
      var parts := Fields(token, '.', 5);
      DotsConserved(token, 5);
      NoDots(parts[1]);
      NoDots(parts[2]);
      var exp: I64 := ParseI64(parts[3]).value;
      assert mac(SharePayload(parts[1], parts[2], exp)) == HexDecode(parts[4]).value;
    }
  }
}
