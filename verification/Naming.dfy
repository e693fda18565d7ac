/** Identifiers the planner builds: `manifest:service` and `service-replica`. */
module Naming {

  predicate IsDigit(c: char) {
    '0' <= c <= '9'
  }

  function Digit(d: nat): (c: char)
    requires d < 10
    ensures IsDigit(c)
  {
    '0' + d as char
  }

  /** A natural number printed the way a template literal prints it. */
  function Decimal(n: nat): (s: string)
    ensures |s| > 0
    ensures forall c :: c in s ==> IsDigit(c)
  {
    if n < 10 then [Digit(n)] else Decimal(n / 10) + [Digit(n % 10)]
  }

  function DigitValue(c: char): nat
    requires IsDigit(c)
  {
    (c - '0') as nat
  }

  predicate AllDigits(s: string) {
    forall c :: c in s ==> IsDigit(c)
  }

  function DigitsValue(s: string): nat
    requires AllDigits(s)
  {
    if s == "" then 0 else assert s[|s| - 1] in s; DigitsValue(s[..|s| - 1]) * 10 + DigitValue(s[|s| - 1])
  }

  /** The value of a digit string; 0 for anything that is not one. */
  function Index(s: string): nat {
    if AllDigits(s) then DigitsValue(s) else 0
  }

  lemma {:induction false} IndexOfDecimal(n: nat)
    ensures Index(Decimal(n)) == n
  {
    if n >= 10 {
      IndexOfDecimal(n / 10);
      assert Decimal(n)[..|Decimal(n)| - 1] == Decimal(n / 10);
    } else {
      assert Decimal(n)[..0] == "" && DigitsValue("") == 0;
      assert DigitValue(Decimal(n)[0]) == n;
    }
  }

  function ServiceId(manifestName: string, serviceName: string): string {
    manifestName + ":" + serviceName
  }

  function InstanceId(serviceId: string, replica: nat): string {
    serviceId + "-" + Decimal(replica)
  }

  /** `Number(id.slice(prefix.length))` for the prefix `serviceId-`. */
  function ReplicaIndex(serviceId: string, id: string): nat {
    if |id| <= |serviceId| + 1 then 0 else Index(id[|serviceId| + 1..])
  }

  lemma ReplicaIndexOfInstanceId(serviceId: string, replica: nat)
    ensures ReplicaIndex(serviceId, InstanceId(serviceId, replica)) == replica
  {
    assert InstanceId(serviceId, replica)[|serviceId| + 1..] == Decimal(replica);
    IndexOfDecimal(replica);
  }

  /** Two strings split at a separator that neither right part contains split the same way. */
  lemma SplitUniqueRight(a1: string, b1: string, a2: string, b2: string, c: char)
    requires a1 + [c] + b1 == a2 + [c] + b2
    requires c !in b1 && c !in b2
    ensures a1 == a2 && b1 == b2
  {
    var s := a1 + [c] + b1;
    assert s[|a1|] == c && s[|a2|] == c;
    assert forall i :: |a1| < i < |s| ==> s[i] == b1[i - |a1| - 1];
    assert forall i :: |a2| < i < |s| ==> s[i] == b2[i - |a2| - 1];
    assert |a1| == |a2|;
    assert a1 == s[..|a1|] && a2 == s[..|a2|];
    assert b1 == s[|a1| + 1..] && b2 == s[|a2| + 1..];
  }

  /** Replica ids of different services, or different replicas, never clash. */
  lemma InstanceIdInjective(s1: string, k1: nat, s2: string, k2: nat)
    requires InstanceId(s1, k1) == InstanceId(s2, k2)
    ensures s1 == s2 && k1 == k2
  {
    SplitUniqueRight(s1, Decimal(k1), s2, Decimal(k2), '-');
    IndexOfDecimal(k1);
    IndexOfDecimal(k2);
  }

  /** A manifest name that another one continues behind a colon. */
  predicate Extends(a: string, b: string) {
    a + ":" <= b
  }

  /** Two manifests' service ids are unambiguous when neither name continues the other behind a colon. */
  lemma ServiceIdInjective(m1: string, n1: string, m2: string, n2: string)
    requires m1 == m2 || (!Extends(m1, m2) && !Extends(m2, m1))
    requires ServiceId(m1, n1) == ServiceId(m2, n2)
    ensures m1 == m2 && n1 == n2
  {
    if |m1| < |m2| {
      PrefixOf(m1 + ":", n1, m2, ":" + n2);
    } else if |m2| < |m1| {
      PrefixOf(m2 + ":", n2, m1, ":" + n1);
    } else {
      assert m1 == ServiceId(m1, n1)[..|m1|] && m2 == ServiceId(m2, n2)[..|m2|];
    }
    assert n1 == ServiceId(m1, n1)[|m1| + 1..] && n2 == ServiceId(m2, n2)[|m2| + 1..];
  }

  lemma PrefixOf(a: string, x: string, b: string, y: string)
    requires |a| <= |b| && a + x == b + y
    ensures a <= b
  {
    assert a == (a + x)[..|a|] && b[..|a|] == (b + y)[..|a|];
  }

  /** With a colon in a manifest name, two services of two manifests can share one id. */
  lemma ServiceIdCollision(a: string, b: string, c: string)
    ensures ServiceId(a + ":" + b, c) == ServiceId(a, b + ":" + c)
  {
    assert (a + ":" + b) + ":" + c == a + ":" + (b + ":" + c);
  }

  lemma ExtendedCollides(a: string, b: string) returns (n1: string, n2: string)
    requires Extends(a, b)
    ensures ServiceId(a, n1) == ServiceId(b, n2)
  {
    var rest := b[|a| + 1..];
    n1, n2 := rest + ":", "";
    ServiceIdCollision(a, rest, "");
    assert b == a + ":" + rest;
    assert rest + ":" + "" == rest + ":";
  }

  /** Some services of two manifests share an id exactly when one name continues the other behind a colon. */
  lemma NamesCollideIff(m1: string, m2: string)
    requires m1 != m2
    ensures (exists n1, n2 :: ServiceId(m1, n1) == ServiceId(m2, n2)) <==> Extends(m1, m2) || Extends(m2, m1)
  {
    if Extends(m1, m2) {
      var n1, n2 := ExtendedCollides(m1, m2);
    }
    if Extends(m2, m1) {
      var n1, n2 := ExtendedCollides(m2, m1);
      assert ServiceId(m1, n2) == ServiceId(m2, n1);
    }
    if exists n1, n2 :: ServiceId(m1, n1) == ServiceId(m2, n2) {
      var n1, n2 :| ServiceId(m1, n1) == ServiceId(m2, n2);
      if !Extends(m1, m2) && !Extends(m2, m1) {
        ServiceIdInjective(m1, n1, m2, n2);
      }
    }
  }
}
