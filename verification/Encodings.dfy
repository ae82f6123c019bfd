/** The byte strings that are signed and authenticated have one reading each. Strings
    here are byte strings. */
module Encodings {
  import opened Text
  import opened Digits

  predicate Without(s: string, c: char) {
    forall i | 0 <= i < |s| :: s[i] != c
  }

  /** The first occurrence of a separator splits a text in only one way. */
  lemma FirstSeparator(c: char, a: string, x: string, b: string, y: string)
    requires Without(a, c) && Without(b, c) && a + [c] + x == b + [c] + y
    ensures a == b && x == y
  {
    var s, t := a + [c] + x, b + [c] + y;
    assert s[|a|] == c && t[|b|] == c;
    assert forall i | 0 <= i < |a| :: s[i] == a[i] != c;
    assert forall i | 0 <= i < |b| :: t[i] == b[i] != c;
    assert |a| == |b|;
    assert a == s[..|a|] && b == t[..|a|];
    assert x == s[|a| + 1..] && y == t[|a| + 1..];
  }

  /** strconv.FormatInt in base ten. */
  function IntText(n: int): string {
    if n < 0 then "-" + NatText(-n) else NatText(n)
  }

  lemma DigitsWithout(s: string, c: char)
    requires AllDigits(s) && !IsDigit(c)
    ensures Without(s, c)
  {
  }

  lemma IntTextIsPlain(n: int)
    ensures Without(IntText(n), '\n')
  {
    var magnitude := if n < 0 then -n else n;
    NatTextFacts(magnitude);
    DigitsWithout(NatText(magnitude), '\n');
  }

  lemma NatTextIsInjective(m: nat, n: nat)
    requires NatText(m) == NatText(n)
    ensures m == n
  {
    NatTextFacts(m);
    NatTextFacts(n);
  }

  lemma IntTextIsInjective(m: int, n: int)
    requires IntText(m) == IntText(n)
    ensures m == n
  {
    hide NatText;
    var a, b := if m < 0 then -m else m, if n < 0 then -n else n;
    NatTextFacts(a);
    NatTextFacts(b);
    assert IntText(m)[0] == '-' <==> m < 0;
    assert IntText(n)[0] == '-' <==> n < 0;
    if m < 0 {
      assert NatText(a) == IntText(m)[1..] && NatText(b) == IntText(n)[1..];
    }
    NatTextIsInjective(a, b);
  }

  // ------------------------------------------------------- webhook MAC input

  const SIGNATURE_VERSION := "v2"

  /** Writes the version, event id, Unix timestamp and body, separated by newlines. */
  function MacInput(id: string, timestamp: int, body: string): string {
    SIGNATURE_VERSION + "\n" + (id + "\n" + (IntText(timestamp) + "\n" + body))
  }

  method WriteSignatureMAC(id: string, timestamp: int, body: string) returns (mac: string)
    ensures mac == MacInput(id, timestamp, body)
  {
    mac := "";
    mac := mac + SIGNATURE_VERSION;
    mac := mac + "\n";
    mac := mac + id;
    mac := mac + "\n";
    mac := mac + IntText(timestamp);
    mac := mac + "\n";
    mac := mac + body;
  }

  /** For ids without a newline, the signed bytes determine the id, timestamp and body. */
  lemma MacInputIsInjective(i1: string, t1: int, b1: string, i2: string, t2: int, b2: string)
    requires Without(i1, '\n') && Without(i2, '\n')
    ensures MacInput(i1, t1, b1) == MacInput(i2, t2, b2) <==> i1 == i2 && t1 == t2 && b1 == b2
  {
    if MacInput(i1, t1, b1) == MacInput(i2, t2, b2) {
      hide IntText;
      FirstSeparator('\n', SIGNATURE_VERSION, i1 + "\n" + (IntText(t1) + "\n" + b1),
                     SIGNATURE_VERSION, i2 + "\n" + (IntText(t2) + "\n" + b2));
      FirstSeparator('\n', i1, IntText(t1) + "\n" + b1, i2, IntText(t2) + "\n" + b2);
      IntTextIsPlain(t1);
      IntTextIsPlain(t2);
      FirstSeparator('\n', IntText(t1), b1, IntText(t2), b2);
      IntTextIsInjective(t1, t2);
    }
  }

  /** Every id with a newline followed by a timestamp shares its signed bytes with another
      message, which is why the receiver refuses such ids. */
  lemma NewlineIdsCollide(id: string, t1: int, t2: int, body: string)
    ensures MacInput(id + "\n" + IntText(t1), t2, body) == MacInput(id, t1, IntText(t2) + "\n" + body)
    ensures id + "\n" + IntText(t1) != id
  {
    hide IntText;
    var a, b := MacInput(id + "\n" + IntText(t1), t2, body), MacInput(id, t1, IntText(t2) + "\n" + body);
    assert a == "v2\n" + id + "\n" + IntText(t1) + "\n" + IntText(t2) + "\n" + body;
    assert b == "v2\n" + id + "\n" + IntText(t1) + "\n" + IntText(t2) + "\n" + body;
    assert |id + "\n" + IntText(t1)| > |id|;
  }

  const MAXIMUM_IDENTITY_LENGTH := 128

  /** The event ids the receiver accepts: bounded printable ASCII. */
  predicate ValidWebhookIdentity(id: string) {
    id != "" && |id| <= MAXIMUM_IDENTITY_LENGTH && forall i | 0 <= i < |id| :: '\U{21}' <= id[i] <= '\U{7E}'
  }

  /** An accepted signature therefore binds one id, timestamp and body. */
  lemma AcceptedIdsAreBound(i1: string, t1: int, b1: string, i2: string, t2: int, b2: string)
    requires ValidWebhookIdentity(i1) && ValidWebhookIdentity(i2)
    requires MacInput(i1, t1, b1) == MacInput(i2, t2, b2)
    ensures i1 == i2 && t1 == t2 && b1 == b2
  {
    MacInputIsInjective(i1, t1, b1, i2, t2, b2);
  }

  // --------------------------------------------------- length-prefixed scope

  function Field(field: string): string {
    NatText(|field|) + ":" + field
  }

  function Prefixed(fields: seq<string>): string {
    if fields == [] then "" else Field(fields[0]) + Prefixed(fields[1..])
  }

  lemma {:induction false} PrefixedAppends(fields: seq<string>, field: string)
    ensures Prefixed(fields + [field]) == Prefixed(fields) + Field(field)
  {
    hide Field;
    if fields == [] {
      assert ([] + [field])[1..] == [];
    } else {
      PrefixedAppends(fields[1..], field);
      assert (fields + [field])[1..] == fields[1..] + [field];
    }
  }

  method LengthPrefixedPurposeFields(fields: seq<string>) returns (purpose: string)
    ensures purpose == Prefixed(fields)
  {
    hide Field;
    purpose := "";
    for i := 0 to |fields|
      invariant purpose == Prefixed(fields[..i])
    {
      PrefixedAppends(fields[..i], fields[i]);
      assert fields[..i + 1] == fields[..i] + [fields[i]];
      purpose := purpose + Field(fields[i]);
    }
    assert fields[..|fields|] == fields;
  }

  lemma FieldSplits(a: string, x: string, b: string, y: string)
    requires Field(a) + x == Field(b) + y
    ensures a == b && x == y
  {
    hide NatText;
    NatTextFacts(|a|);
    NatTextFacts(|b|);
    DigitsWithout(NatText(|a|), ':');
    DigitsWithout(NatText(|b|), ':');
    assert NatText(|a|) + ":" + (a + x) == Field(a) + x;
    assert NatText(|b|) + ":" + (b + y) == Field(b) + y;
    FirstSeparator(':', NatText(|a|), a + x, NatText(|b|), b + y);
    NatTextIsInjective(|a|, |b|);
    assert a == (a + x)[..|a|] && b == (b + y)[..|a|];
    assert x == (a + x)[|a|..] && y == (b + y)[|a|..];
  }

  /** The encoding determines the fields, their number and their order. */
  lemma {:induction false} PrefixedIsInjective(a: seq<string>, b: seq<string>)
    ensures Prefixed(a) == Prefixed(b) <==> a == b
    decreases |a|
  {
    if Prefixed(a) == Prefixed(b) {
      if a == [] || b == [] {
        assert a == b by {
          if a != [] { NotEmpty(a); }
          if b != [] { NotEmpty(b); }
        }
      } else {
        FieldSplits(a[0], Prefixed(a[1..]), b[0], Prefixed(b[1..]));
        PrefixedIsInjective(a[1..], b[1..]);
        assert a == [a[0]] + a[1..] && b == [b[0]] + b[1..];
      }
    }
  }

  lemma NotEmpty(a: seq<string>)
    requires a != []
    ensures Prefixed(a) != ""
  {
    assert |Field(a[0])| >= 1;
  }
}
