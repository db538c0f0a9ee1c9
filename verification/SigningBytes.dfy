/** The bytes that both sides of the handshake sign: a domain line and length-prefixed fields.

    Text is taken as its UTF-8 encoding, a sequence of byte values; nothing below depends on
    their upper bound. Python and Go build the same bytes. */
module SigningBytes {

  import opened Collections
  import opened Ordering

  const COMMA: int := 44
  const COLON: int := 58
  const EQUALS: int := 61
  const NEWLINE: int := 10
  const MINUS: int := 45

  function Ascii(s: string): Bytes {
    Codes(s)
  }

  // ---- Numbers ----

  function Digits(n: nat): (r: Bytes)
    ensures r != [] && forall d <- r :: 48 <= d <= 57
  {
    if n < 10 then [48 + n] else Digits(n / 10) + [48 + n % 10]
  }

  function DigitsValue(r: Bytes): int {
    if r == [] then 0 else DigitsValue(r[..|r| - 1]) * 10 + (r[|r| - 1] - 48)
  }

  lemma {:induction false} DigitsRoundTrip(n: nat)
    ensures DigitsValue(Digits(n)) == n
  {
    if n >= 10 {
      DigitsRoundTrip(n / 10);
      assert Digits(n)[..|Digits(n)| - 1] == Digits(n / 10);
    } else {
      assert Digits(n)[..0] == [];
    }
  }

  function Decimal(n: int): Bytes {
    if n < 0 then [MINUS] + Digits(-n) else Digits(n)
  }

  function DecimalValue(r: Bytes): int {
    if r != [] && r[0] == MINUS then -DigitsValue(r[1..]) else DigitsValue(r)
  }

  lemma DecimalRoundTrip(n: int)
    ensures DecimalValue(Decimal(n)) == n
  {
    if n < 0 {
      DigitsRoundTrip(-n);
      assert Decimal(n)[1..] == Digits(-n);
    } else {
      DigitsRoundTrip(n);
      assert Digits(n)[0] in Digits(n);
    }
  }

  // ---- Separators and fields ----

  /** Text up to the first separator can be read back, and so can the rest. */
  lemma {:induction false} SeparatorSplits(x: Bytes, y: Bytes, sep: int, r: Bytes, s: Bytes)
    requires sep !in x && sep !in y && x + [sep] + r == y + [sep] + s
    ensures x == y && r == s
  {
    var whole := x + [sep] + r;
    assert whole[|x|] == sep && whole[|y|] == sep;
    assert forall i :: 0 <= i < |x| ==> whole[i] == x[i];
    assert forall i :: 0 <= i < |y| ==> whole[i] == y[i];
    assert |x| == |y|;
    assert x == whole[..|x|] && y == whole[..|y|];
    assert r == whole[|x| + 1..] && s == whole[|y| + 1..];
  }

  function Field(name: string, value: Bytes): Bytes {
    Ascii(name) + [EQUALS] + Digits(|value|) + [COLON] + value + [NEWLINE]
  }

  lemma FieldSplits(name: string, v: Bytes, r: Bytes, w: Bytes, s: Bytes)
    requires Field(name, v) + r == Field(name, w) + s
    ensures v == w && r == s
  {
    var head := Ascii(name) + [EQUALS];
    var tv, tw := v + [NEWLINE] + r, w + [NEWLINE] + s;
    assert Field(name, v) + r == head + (Digits(|v|) + [COLON] + tv);
    assert Field(name, w) + s == head + (Digits(|w|) + [COLON] + tw);
    assert (Field(name, v) + r)[|head|..] == Digits(|v|) + [COLON] + tv;
    assert (Field(name, w) + s)[|head|..] == Digits(|w|) + [COLON] + tw;
    SeparatorSplits(Digits(|v|), Digits(|w|), COLON, tv, tw);
    DigitsRoundTrip(|v|);
    DigitsRoundTrip(|w|);
    assert v == tv[..|v|] && w == tw[..|w|];
    assert r == tv[|v| + 1..] && s == tw[|w| + 1..];
  }

  /** Fields one after another. */
  function Encoded(names: seq<string>, values: seq<Bytes>): Bytes
    requires |names| == |values|
  {
    if names == [] then [] else Field(names[0], values[0]) + Encoded(names[1..], values[1..])
  }

  lemma {:induction false} EncodedIsInjective(names: seq<string>, v: seq<Bytes>, w: seq<Bytes>)
    requires |names| == |v| == |w| && Encoded(names, v) == Encoded(names, w)
    ensures v == w
  {
    if names != [] {
      FieldSplits(names[0], v[0], Encoded(names[1..], v[1..]), w[0], Encoded(names[1..], w[1..]));
      EncodedIsInjective(names[1..], v[1..], w[1..]);
      assert v == [v[0]] + v[1..] && w == [w[0]] + w[1..];
    }
  }

  // ---- Capability lists ----

  ghost predicate StrictlySorted(s: seq<Bytes>) {
    forall i, j :: 0 <= i < j < |s| ==> Less(s[i], s[j])
  }

  function Elements(s: seq<Bytes>): set<Bytes> {
    set x | x in s
  }

  /** Sorted insertion without repetition. */
  function Inserted(s: seq<Bytes>, x: Bytes): seq<Bytes> {
    if s == [] then [x]
    else if s[0] == x then s
    else if Less(x, s[0]) then [x] + s
    else [s[0]] + Inserted(s[1..], x)
  }

  lemma SortedCons(x: Bytes, s: seq<Bytes>)
    requires StrictlySorted(s) && forall y <- s :: Less(x, y)
    ensures StrictlySorted([x] + s)
  {
    forall i, j | 0 <= i < j < |s| + 1
      ensures Less(([x] + s)[i], ([x] + s)[j])
    {
      assert ([x] + s)[j] == s[j - 1];
    }
  }

  lemma ElementsCons(x: Bytes, s: seq<Bytes>)
    ensures Elements([x] + s) == {x} + Elements(s)
  {
    assert forall y :: y in [x] + s <==> y == x || y in s;
  }

  lemma {:induction false} InsertedHasElements(s: seq<Bytes>, x: Bytes)
    ensures Elements(Inserted(s, x)) == Elements(s) + {x}
  {
    if s == [] || (s[0] != x && Less(x, s[0])) {
      ElementsCons(x, s);
    } else {
      assert [s[0]] + s[1..] == s;
      ElementsCons(s[0], s[1..]);
      InsertedHasElements(s[1..], x);
      ElementsCons(s[0], Inserted(s[1..], x));
    }
  }

  lemma {:induction false} InsertedIsSorted(s: seq<Bytes>, x: Bytes)
    requires StrictlySorted(s)
    ensures StrictlySorted(Inserted(s, x)) && Elements(Inserted(s, x)) == Elements(s) + {x}
  {
    InsertedHasElements(s, x);
    if s != [] && s[0] != x {
      LessIsTotal(x, s[0]);
      if Less(x, s[0]) {
        forall y | y in s
          ensures Less(x, y)
        {
          if y != s[0] {
            LessIsTransitive(x, s[0], y);
          }
        }
        SortedCons(x, s);
      } else {
        InsertedIsSorted(s[1..], x);
        forall y | y in Inserted(s[1..], x)
          ensures Less(s[0], y)
        {
          assert y in Elements(Inserted(s[1..], x));
        }
        SortedCons(s[0], Inserted(s[1..], x));
      }
    }
  }

  /** The sorted list of distinct capabilities. */
  function Normalized(values: seq<Bytes>): seq<Bytes> {
    if values == [] then [] else Inserted(Normalized(values[..|values| - 1]), values[|values| - 1])
  }

  lemma {:induction false} NormalizedIsSorted(values: seq<Bytes>)
    ensures StrictlySorted(Normalized(values)) && Elements(Normalized(values)) == Elements(values)
  {
    if values != [] {
      var front := values[..|values| - 1];
      NormalizedIsSorted(front);
      InsertedIsSorted(Normalized(front), values[|values| - 1]);
      assert values == front + [values[|values| - 1]];
    }
  }

  /** A sorted list is determined by its elements. */
  lemma {:induction false} SortedIsUnique(a: seq<Bytes>, b: seq<Bytes>)
    requires StrictlySorted(a) && StrictlySorted(b) && Elements(a) == Elements(b)
    ensures a == b
  {
    assert b != [] ==> b[0] in Elements(b);
    if a != [] {
      assert a[0] in Elements(a);
      var k :| 0 <= k < |b| && b[k] == a[0];
      assert b[0] in Elements(b);
      var l :| 0 <= l < |a| && a[l] == b[0];
      if k > 0 && l > 0 {
        LessIsStrict(b[0], b[k]);
      }
      assert a[0] == b[0];
      TailElements(a);
      TailElements(b);
      SortedIsUnique(a[1..], b[1..]);
      assert a == [a[0]] + a[1..] && b == [b[0]] + b[1..];
    }
  }

  lemma TailElements(a: seq<Bytes>)
    requires StrictlySorted(a) && a != []
    ensures Elements(a[1..]) == Elements(a) - {a[0]}
  {
    forall i | 0 <= i < |a[1..]|
      ensures a[1..][i] != a[0]
    {
      LessIsStrict(a[0], a[i + 1]);
    }
    assert Elements(a) == {a[0]} + Elements(a[1..]);
  }

  /** Order and repetition of capabilities do not matter, and nothing else is lost. */
  lemma NormalizedIffSameSet(a: seq<Bytes>, b: seq<Bytes>)
    ensures Normalized(a) == Normalized(b) <==> Elements(a) == Elements(b)
  {
    NormalizedIsSorted(a);
    NormalizedIsSorted(b);
    if Elements(a) == Elements(b) {
      SortedIsUnique(Normalized(a), Normalized(b));
    }
  }

  /** Collects the distinct values and lists them in order. */
  method NormalizeCapabilities(values: seq<Bytes>) returns (r: seq<Bytes>)
    ensures StrictlySorted(r) && Elements(r) == Elements(values)
    ensures r == Normalized(values)
  {
    r := [];
    for i := 0 to |values|
      invariant r == Normalized(values[..i])
    {
      assert values[..i + 1][..i] == values[..i];
      r := Inserted(r, values[i]);
    }
    assert values[..|values|] == values;
    NormalizedIsSorted(values);
  }

  function Joined(names: seq<Bytes>): Bytes {
    if names == [] then [] else if |names| == 1 then names[0] else names[0] + [COMMA] + Joined(names[1..])
  }

  predicate CommaFree(names: seq<Bytes>) {
    forall n <- names :: COMMA !in n
  }

  lemma JoinedHasComma(names: seq<Bytes>)
    requires CommaFree(names)
    ensures COMMA in Joined(names) <==> |names| > 1
  {
    if |names| > 1 {
      assert Joined(names)[|names[0]|] == COMMA;
    } else if |names| == 1 {
      assert names[0] in names;
    }
  }

  lemma {:induction false} JoinedIsInjective(a: seq<Bytes>, b: seq<Bytes>)
    requires a != [] && b != [] && CommaFree(a) && CommaFree(b) && Joined(a) == Joined(b)
    ensures a == b
  {
    JoinedHasComma(a);
    JoinedHasComma(b);
    if |a| > 1 && |b| > 1 {
      SeparatorSplits(a[0], b[0], COMMA, Joined(a[1..]), Joined(b[1..]));
      JoinedIsInjective(a[1..], b[1..]);
      assert a == [a[0]] + a[1..] && b == [b[0]] + b[1..];
    }
  }

  function CapabilityText(values: seq<Bytes>): Bytes {
    Joined(Normalized(values))
  }

  /** No capability at all, or only the empty name: the text is empty either way. */
  predicate Negligible(values: seq<Bytes>) {
    forall v <- values :: v == []
  }

  lemma NegligibleMeansEmptyText(values: seq<Bytes>)
    requires CommaFree(values)
    ensures Negligible(values) <==> CapabilityText(values) == []
  {
    NormalizedIsSorted(values);
    var n := Normalized(values);
    forall v
      ensures v in n <==> v in values
    {
      assert v in Elements(n) <==> v in Elements(values);
    }
    assert |n| == 1 ==> n == [n[0]] && n[0] in n;
    assert |n| > 1 ==> Joined(n)[|n[0]|] == COMMA;
    if |n| > 1 {
      assert n[0] in n && n[1] in n;
      LessIsStrict(n[0], n[1]);
    }
  }

  /** For names without commas, two lists give the same text exactly if they hold the same
      capabilities, except that the empty name alone cannot be told from no capability. */
  lemma CapabilityTextIsExact(a: seq<Bytes>, b: seq<Bytes>)
    requires CommaFree(a) && CommaFree(b)
    ensures CapabilityText(a) == CapabilityText(b) <==> Elements(a) == Elements(b) || (Negligible(a) && Negligible(b))
  {
    NormalizedIsSorted(a);
    NormalizedIsSorted(b);
    NegligibleMeansEmptyText(a);
    NegligibleMeansEmptyText(b);
    NormalizedIffSameSet(a, b);
    var na, nb := Normalized(a), Normalized(b);
    assert forall v :: v in Elements(na) <==> v in Elements(a);
    assert forall v :: v in Elements(nb) <==> v in Elements(b);
    assert CommaFree(na) by {
      forall v | v in na ensures COMMA !in v { assert v in Elements(na); }
    }
    assert CommaFree(nb) by {
      forall v | v in nb ensures COMMA !in v { assert v in Elements(nb); }
    }
    if Joined(na) == Joined(nb) && Joined(na) != [] {
      JoinedIsInjective(na, nb);
    }
  }

  /** With commas in names, different capabilities can share one text: any two names and the one
      name that joins them. */
  lemma CommasCollide(a: Bytes, b: Bytes)
    requires Less(a, b)
    ensures var ab := a + [COMMA] + b;
            CapabilityText([ab]) == CapabilityText([a, b]) && Elements([ab]) != Elements([a, b])
  {
    var ab := a + [COMMA] + b;
    NormalizedIsItself([ab]);
    NormalizedIsItself([a, b]);
    assert [a, b][1..] == [b] && Joined([b]) == b;
    assert [a, b][0] == a && a in Elements([a, b]);
    assert |a| < |ab| && a !in Elements([ab]);
  }

  lemma NormalizedIsItself(values: seq<Bytes>)
    requires StrictlySorted(values)
    ensures Normalized(values) == values
  {
    NormalizedIsSorted(values);
    SortedIsUnique(Normalized(values), values);
  }

  lemma SameTextSameBase(c: ClientAuth, requested: seq<Bytes>)
    requires CapabilityText(requested) == CapabilityText(c.requested)
    ensures ClientBase(c.(requested := requested)) == ClientBase(c)
  {
    assert ClientValues(c.(requested := requested)) == ClientValues(c);
  }

  lemma SameTextSameAccept(a: ServerAccept, granted: seq<Bytes>)
    requires CapabilityText(granted) == CapabilityText(a.granted)
    ensures ServerBase(a.(granted := granted)) == ServerBase(a)
  {
    assert ServerValues(a.(granted := granted)) == ServerValues(a);
  }

  // ---- The two signing bases ----

  datatype ClientAuth = ClientAuth(protocolVersion: Bytes, controllerPrincipal: Bytes, controllerKeyId: Bytes,
                                   workstationPrincipal: Bytes, serverChallenge: Bytes, clientNonce: Bytes,
                                   requested: seq<Bytes>)

  datatype ServerAccept = ServerAccept(protocolVersion: Bytes, sessionId: Bytes, controllerPrincipal: Bytes,
                                       workstationPrincipal: Bytes, workstationKeyId: Bytes, serverChallenge: Bytes,
                                       clientNonce: Bytes, granted: seq<Bytes>, expiresAtMs: int)

  const DOMAIN_CLIENT: string := "veramesh-veraport-v1/session-client-auth\n"
  const DOMAIN_SERVER: string := "veramesh-veraport-v1/session-server-accept\n"

  const CLIENT_FIELDS: seq<string> := ["protocol_version", "controller_principal", "controller_key_id",
                                       "workstation_principal", "server_challenge", "client_nonce", "requested_capabilities"]

  const SERVER_FIELDS: seq<string> := ["protocol_version", "session_id", "controller_principal", "workstation_principal",
                                       "workstation_key_id", "server_challenge", "client_nonce", "granted_capabilities", "expires_at_ms"]

  function ClientValues(c: ClientAuth): (v: seq<Bytes>)
    ensures |v| == |CLIENT_FIELDS|
  {
    [c.protocolVersion, c.controllerPrincipal, c.controllerKeyId, c.workstationPrincipal, c.serverChallenge, c.clientNonce,
     CapabilityText(c.requested)]
  }

  function ServerValues(a: ServerAccept): (v: seq<Bytes>)
    ensures |v| == |SERVER_FIELDS|
  {
    [a.protocolVersion, a.sessionId, a.controllerPrincipal, a.workstationPrincipal, a.workstationKeyId, a.serverChallenge,
     a.clientNonce, CapabilityText(a.granted), Decimal(a.expiresAtMs)]
  }

  function ClientBase(c: ClientAuth): Bytes {
    Ascii(DOMAIN_CLIENT) + Encoded(CLIENT_FIELDS, ClientValues(c))
  }

  function ServerBase(a: ServerAccept): Bytes {
    Ascii(DOMAIN_SERVER) + Encoded(SERVER_FIELDS, ServerValues(a))
  }

  /** Same capabilities as far as the text can tell. */
  ghost predicate SameCapabilities(a: seq<Bytes>, b: seq<Bytes>) {
    Elements(a) == Elements(b) || (Negligible(a) && Negligible(b))
  }

  /** Client bases are equal exactly if every signed field is and the capabilities agree. */
  lemma ClientBaseIsExact(c: ClientAuth, d: ClientAuth)
    requires CommaFree(c.requested) && CommaFree(d.requested)
    ensures ClientBase(c) == ClientBase(d) <==> c.(requested := []) == d.(requested := []) && SameCapabilities(c.requested, d.requested)
  {
    CapabilityTextIsExact(c.requested, d.requested);
    if ClientBase(c) == ClientBase(d) {
      var n := |Ascii(DOMAIN_CLIENT)|;
      assert ClientBase(c)[n..] == Encoded(CLIENT_FIELDS, ClientValues(c));
      assert ClientBase(d)[n..] == Encoded(CLIENT_FIELDS, ClientValues(d));
      EncodedIsInjective(CLIENT_FIELDS, ClientValues(c), ClientValues(d));
      var v, w := ClientValues(c), ClientValues(d);
      assert v[0] == w[0] && v[1] == w[1] && v[2] == w[2] && v[3] == w[3] && v[4] == w[4] && v[5] == w[5] && v[6] == w[6];
    }
  }

  lemma ServerBaseIsExact(a: ServerAccept, b: ServerAccept)
    requires CommaFree(a.granted) && CommaFree(b.granted)
    ensures ServerBase(a) == ServerBase(b) <==> a.(granted := []) == b.(granted := []) && SameCapabilities(a.granted, b.granted)
  {
    CapabilityTextIsExact(a.granted, b.granted);
    if ServerBase(a) == ServerBase(b) {
      var n := |Ascii(DOMAIN_SERVER)|;
      assert ServerBase(a)[n..] == Encoded(SERVER_FIELDS, ServerValues(a));
      assert ServerBase(b)[n..] == Encoded(SERVER_FIELDS, ServerValues(b));
      EncodedIsInjective(SERVER_FIELDS, ServerValues(a), ServerValues(b));
      var v, w := ServerValues(a), ServerValues(b);
      assert v[0] == w[0] && v[1] == w[1] && v[2] == w[2] && v[3] == w[3] && v[4] == w[4];
      assert v[5] == w[5] && v[6] == w[6] && v[7] == w[7] && v[8] == w[8];
      DecimalRoundTrip(a.expiresAtMs);
      DecimalRoundTrip(b.expiresAtMs);
    }
  }

  /** A signature made for one role never fits the other. */
  lemma RolesAreSeparated(c: ClientAuth, a: ServerAccept)
    ensures ClientBase(c) != ServerBase(a)
  {
    var i := |"veramesh-veraport-v1/session-"|;
    assert ClientBase(c)[i] == Ascii(DOMAIN_CLIENT)[i] == DOMAIN_CLIENT[i] as int == 'c' as int;
    assert ServerBase(a)[i] == Ascii(DOMAIN_SERVER)[i] == DOMAIN_SERVER[i] as int == 's' as int;
  }
}
