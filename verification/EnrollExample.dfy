/** Tools that meet what the sealing theorems ask for: a text format spelled out in unary, and no secrecy at all. */
module EnrollExample {
  import opened Wrappers
  import opened Json
  import opened Encodings
  import opened Enroll

  function Unary(n: nat): (s: seq<byte>)
    ensures s != []
  {
    if n == 0 then [0] else [1] + Unary(n - 1)
  }

  function Spell(ns: seq<nat>): seq<byte> {
    if ns == [] then [] else Unary(ns[0]) + Spell(ns[1..])
  }

  lemma {:induction false} UnaryIsPrefixFree(m: nat, n: nat, s: seq<byte>, t: seq<byte>)
    requires Unary(m) + s == Unary(n) + t
    ensures m == n && s == t
  {
    var a, b := Unary(m) + s, Unary(n) + t;
    assert a[0] == (if m == 0 then 0 else 1) && b[0] == (if n == 0 then 0 else 1);
    if m == 0 {
      assert a[1..] == s && b[1..] == t;
    } else {
      assert a[1..] == Unary(m - 1) + s && b[1..] == Unary(n - 1) + t;
      UnaryIsPrefixFree(m - 1, n - 1, s, t);
    }
  }

  lemma {:induction false} SpellIsInjective(ms: seq<nat>, ns: seq<nat>)
    requires Spell(ms) == Spell(ns)
    ensures ms == ns
  {
    if ms != [] && ns != [] {
      UnaryIsPrefixFree(ms[0], ns[0], Spell(ms[1..]), Spell(ns[1..]));
      SpellIsInjective(ms[1..], ns[1..]);
      assert ms == [ms[0]] + ms[1..] && ns == [ns[0]] + ns[1..];
    }
  }

  function OfInt(i: int): nat {
    if i >= 0 then 2 * i else -2 * i - 1
  }

  function OfBytes(bytes: seq<byte>): (ns: seq<nat>)
    ensures |ns| == |bytes| && forall i :: 0 <= i < |bytes| ==> ns[i] == bytes[i]
  {
    seq(|bytes|, i requires 0 <= i < |bytes| => bytes[i])
  }

  function OfText(s: string): (ns: seq<nat>)
    ensures |ns| == |s| && forall i :: 0 <= i < |s| ==> ns[i] == s[i] as nat
  {
    seq(|s|, i requires 0 <= i < |s| => s[i] as nat)
  }

  lemma TextIsItsNumbers(s: string, t: string)
    requires OfText(s) == OfText(t)
    ensures s == t
  {
    forall i | 0 <= i < |s| ensures s[i] == t[i] {
      assert OfText(s)[i] == OfText(t)[i];
    }
  }

  lemma FirstsAgree(a: seq<nat>, rest: seq<nat>, b: seq<nat>, other: seq<nat>)
    requires |a| == |b| && a + rest == b + other
    ensures a == b && rest == other
  {
    assert a == (a + rest)[..|a|] && b == (b + other)[..|b|];
    assert rest == (a + rest)[|a|..] && other == (b + other)[|b|..];
  }

  // ---------------------------------------------------------------------------------- envelopes

  function HeaderLengths(e: Envelope): seq<nat> {
    [1, OfInt(e.opslimit), OfInt(e.memlimit), |e.salt|, |e.nonce|]
  }

  function HeaderNumbers(e: Envelope): seq<nat> {
    HeaderLengths(e) + (OfBytes(e.salt) + (OfBytes(e.nonce) + OfBytes(e.ciphertext)))
  }

  lemma HeaderNumbersAreInjective(e: Envelope, f: Envelope)
    requires HeaderNumbers(e) == HeaderNumbers(f)
    ensures e == f
  {
    FirstsAgree(HeaderLengths(e), OfBytes(e.salt) + (OfBytes(e.nonce) + OfBytes(e.ciphertext)),
                HeaderLengths(f), OfBytes(f.salt) + (OfBytes(f.nonce) + OfBytes(f.ciphertext)));
    var a, b := HeaderLengths(e), HeaderLengths(f);
    assert a[1] == b[1] && a[2] == b[2] && a[3] == b[3] && a[4] == b[4];
    FirstsAgree(OfBytes(e.salt), OfBytes(e.nonce) + OfBytes(e.ciphertext), OfBytes(f.salt), OfBytes(f.nonce) + OfBytes(f.ciphertext));
    FirstsAgree(OfBytes(e.nonce), OfBytes(e.ciphertext), OfBytes(f.nonce), OfBytes(f.ciphertext));
  }

  // ----------------------------------------------------------------------------------- payloads

  function Texts(p: EnrollPayload): seq<string> {
    [p.backendMode, p.hubUrl, p.hubToken, p.memberId, p.memberEmail, p.workspaceId, p.workspaceName]
  }

  function TextNumbers(texts: seq<string>): seq<nat> {
    if texts == [] then [] else [|texts[0]|] + (OfText(texts[0]) + TextNumbers(texts[1..]))
  }

  lemma {:induction false} TextNumbersAreInjective(s: seq<string>, t: seq<string>)
    requires TextNumbers(s) == TextNumbers(t)
    ensures s == t
  {
    if s != [] && t != [] {
      FirstsAgree([|s[0]|], OfText(s[0]) + TextNumbers(s[1..]), [|t[0]|], OfText(t[0]) + TextNumbers(t[1..]));
      assert [|s[0]|][0] == [|t[0]|][0];
      FirstsAgree(OfText(s[0]), TextNumbers(s[1..]), OfText(t[0]), TextNumbers(t[1..]));
      TextIsItsNumbers(s[0], t[0]);
      TextNumbersAreInjective(s[1..], t[1..]);
      assert s == [s[0]] + s[1..] && t == [t[0]] + t[1..];
    }
  }

  function PayloadNumbers(p: EnrollPayload): seq<nat> {
    [2, OfInt(p.issuedAt), OfInt(p.expiresAt)] + TextNumbers(Texts(p))
  }

  lemma PayloadNumbersAreInjective(p: EnrollPayload, q: EnrollPayload)
    requires PayloadNumbers(p) == PayloadNumbers(q)
    ensures p == q
  {
    var a, b := [2, OfInt(p.issuedAt), OfInt(p.expiresAt)], [2, OfInt(q.issuedAt), OfInt(q.expiresAt)];
    FirstsAgree(a, TextNumbers(Texts(p)), b, TextNumbers(Texts(q)));
    assert a[1] == b[1] && a[2] == b[2];
    TextNumbersAreInjective(Texts(p), Texts(q));
    var s, t := Texts(p), Texts(q);
    assert s[0] == t[0] && s[1] == t[1] && s[2] == t[2] && s[3] == t[3] && s[4] == t[4] && s[5] == t[5] && s[6] == t[6];
  }

  // -------------------------------------------------------------------------------------- tools

  /** The text of an object: of a header or a payload, its numbers spelled out. */
  ghost function Dump(o: Object): seq<byte> {
    if e :| o == WriteHeader(e) then Spell(HeaderNumbers(e))
    else if p :| o == WritePayload(p) then Spell(PayloadNumbers(p))
    else []
  }

  ghost function Load(text: seq<byte>): Option<Json> {
    if e :| text == Spell(HeaderNumbers(e)) then Some(Obj(WriteHeader(e)))
    else if p :| text == Spell(PayloadNumbers(p)) then Some(Obj(WritePayload(p)))
    else None
  }

  ghost function OpenTools(): Tools {
    Tools(o => Dump(o), text => Load(text), (passcode, salt, opslimit, memlimit) => [], (key, nonce, text) => text,
          (key, nonce, ciphertext) => Some(ciphertext))
  }

  lemma HeaderLoads(e: Envelope)
    ensures Load(Dump(WriteHeader(e))) == Some(Obj(WriteHeader(e)))
  {
    forall f | WriteHeader(f) == WriteHeader(e) ensures f == e {
      HeaderIsInjective(e, f);
    }
    assert Dump(WriteHeader(e)) == Spell(HeaderNumbers(e));
    forall g | Spell(HeaderNumbers(g)) == Spell(HeaderNumbers(e)) ensures g == e {
      SpellIsInjective(HeaderNumbers(g), HeaderNumbers(e));
      HeaderNumbersAreInjective(g, e);
    }
  }

  lemma HeaderIsInjective(e: Envelope, f: Envelope)
    requires WriteHeader(e) == WriteHeader(f)
    ensures e == f
  {
    HeaderByField(WriteHeader(e), e);
    HeaderByField(WriteHeader(e), f);
    HexReadsBack(e.salt);
    HexReadsBack(f.salt);
    HexReadsBack(e.nonce);
    HexReadsBack(f.nonce);
    Base64ReadsBack(e.ciphertext);
    Base64ReadsBack(f.ciphertext);
  }

  lemma NoHeaderIsPayload(e: Envelope, p: EnrollPayload)
    ensures WriteHeader(e) != WritePayload(p) && Spell(HeaderNumbers(e)) != Spell(PayloadNumbers(p))
  {
    assert WriteHeader(e)["format"] == Str(ENVELOPE_FORMAT);
    assert WritePayload(p)["format"] == Str(PAYLOAD_FORMAT) by {
      assert FIELD_NAMES[0] == "format";
    }
    assert |ENVELOPE_FORMAT| != |PAYLOAD_FORMAT|;
    assert HeaderNumbers(e)[0] == 1 && PayloadNumbers(p)[0] == 2;
    if Spell(HeaderNumbers(e)) == Spell(PayloadNumbers(p)) {
      SpellIsInjective(HeaderNumbers(e), PayloadNumbers(p));
    }
  }

  lemma PayloadLoads(p: EnrollPayload)
    ensures Load(Dump(WritePayload(p))) == Some(Obj(WritePayload(p)))
  {
    forall e, q ensures WriteHeader(e) != WritePayload(q) && Spell(HeaderNumbers(e)) != Spell(PayloadNumbers(q)) {
      NoHeaderIsPayload(e, q);
    }
    var f :| WritePayload(p) == WritePayload(f) && Dump(WritePayload(p)) == Spell(PayloadNumbers(f));
    forall g | Spell(PayloadNumbers(g)) == Spell(PayloadNumbers(f)) ensures g == f {
      SpellIsInjective(PayloadNumbers(g), PayloadNumbers(f));
      PayloadNumbersAreInjective(g, f);
    }
  }

  /** There are tools such as the sealing theorems ask for. */
  lemma OpenToolsAreSound()
    ensures AreSound(OpenTools())
  {
    forall e ensures Load(Dump(WriteHeader(e))) == Some(Obj(WriteHeader(e))) {
      HeaderLoads(e);
    }
    forall p ensures Load(Dump(WritePayload(p))) == Some(Obj(WritePayload(p))) {
      PayloadLoads(p);
    }
  }
}
