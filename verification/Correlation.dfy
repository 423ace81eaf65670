/** Identities, session ids and the joining rule (correlation.py). */
module Correlation {
  import Normalizer
  import opened Sequences
  import opened Wrappers

  datatype Identity = Identity(sourceIp: string, honeypot: string, service: string, protocol: string, port: nat)

  const MINUTE := 60_000_000

  /** AEGIS_SESSION_GAP_MINUTES clamped to 1..180, in microseconds. */
  function SessionGap(minutes: int): (gap: int)
    ensures gap == 60_000_000 * if minutes < 1 then 1 else if minutes > 180 then 180 else minutes
  {
    (if minutes < 1 then 1 else if minutes > 180 then 180 else minutes) * MINUTE
  }

  predicate ShouldJoin(gap: int, lastSeen: int, timestamp: int) {
    0 <= timestamp - lastSeen <= gap
  }

  function OrUnknown(value: Option<string>): string {
    if value.None? || value.value == "" then "unknown" else value.value
  }

  function SessionIdentity(sourceIp: Option<string>, honeypot: Option<string>, service: Option<string>,
                           protocol: Option<string>, port: Option<nat>): Identity {
    Identity(OrUnknown(sourceIp), OrUnknown(honeypot), OrUnknown(service), OrUnknown(protocol),
             if port.Some? then port.value else 0)
  }

  /** A text that is missing, empty or the placeholder itself. */
  predicate Blank(value: Option<string>) {
    value.None? || value.value == "" || value.value == "unknown"
  }

  /** Events share an identity exactly when each of the five fields is equal or blank in both. */
  lemma IdentitiesMeet(ipA: Option<string>, honeypotA: Option<string>, serviceA: Option<string>,
                       protocolA: Option<string>, portA: Option<nat>,
                       ipB: Option<string>, honeypotB: Option<string>, serviceB: Option<string>,
                       protocolB: Option<string>, portB: Option<nat>)
    ensures SessionIdentity(ipA, honeypotA, serviceA, protocolA, portA)
            == SessionIdentity(ipB, honeypotB, serviceB, protocolB, portB)
            <==> && (ipA == ipB || (Blank(ipA) && Blank(ipB)))
                 && (honeypotA == honeypotB || (Blank(honeypotA) && Blank(honeypotB)))
                 && (serviceA == serviceB || (Blank(serviceA) && Blank(serviceB)))
                 && (protocolA == protocolB || (Blank(protocolA) && Blank(protocolB)))
                 && (portA == portB || (portA in {None, Some(0)} && portB in {None, Some(0)}))
  {
  }

  predicate Given(value: Option<string>) {
    value.Some? && value.value != ""
  }

  /** The session named by the sensor or by a Suricata flow, if any. */
  function ExplicitSessionToken(sensorSessionId: Option<string>, flowId: Option<string>,
                                flowStart: Option<string>): Option<string>
  {
    if Given(sensorSessionId) then
      Some("sensor:" + Take(sensorSessionId.value, 256))
    else if Given(flowId) then
      Some("suricata:" + Take(flowId.value, 128) + if Given(flowStart) then ":" + Take(flowStart.value, 128) else "")
    else
      None
  }

  /** Tokens of the two kinds never meet, and sensor tokens meet exactly when the first 256 characters do. */
  lemma TokensMeet(a: Option<string>, flowA: Option<string>, startA: Option<string>,
                   b: Option<string>, flowB: Option<string>, startB: Option<string>)
    requires Given(a)
    ensures ExplicitSessionToken(a, flowA, startA) == ExplicitSessionToken(b, flowB, startB)
            <==> Given(b) && Take(a.value, 256) == Take(b.value, 256)
  {
    var s, t := ExplicitSessionToken(a, flowA, startA), ExplicitSessionToken(b, flowB, startB);
    assert s.value[7..] == Take(a.value, 256);
    if Given(b) {
      assert t.value[7..] == Take(b.value, 256);
    } else if t.Some? {
      assert s.value[1] == 'e' && t.value[1] == 'u';
    }
  }

  lemma SplitAtColon(p: string, x: string, q: string, y: string)
    requires ':' !in p && ':' !in q && p + x == q + y
    requires (x == "" || x[0] == ':') && (y == "" || y[0] == ':')
    ensures p == q && x == y
  {
    var s := p + x;
    assert forall i | 0 <= i < |p| :: s[i] == p[i];
    assert forall i | 0 <= i < |q| :: s[i] == q[i];
    assert |p| < |s| ==> s[|p|] == x[0];
    assert |q| < |s| ==> s[|q|] == y[0];
    assert |p| == |q|;
    assert p == s[..|p|] == q && x == s[|p|..] == y;
  }

  /** Flow tokens meet exactly when 128 characters of the flow id and of its start do, for ids without a colon. */
  lemma FlowTokensMeet(a: Option<string>, flowA: Option<string>, startA: Option<string>,
                       b: Option<string>, flowB: Option<string>, startB: Option<string>)
    requires !Given(a) && Given(flowA) && ':' !in Take(flowA.value, 128)
    requires !Given(b) && Given(flowB) && ':' !in Take(flowB.value, 128)
    ensures ExplicitSessionToken(a, flowA, startA) == ExplicitSessionToken(b, flowB, startB)
            <==> && Take(flowA.value, 128) == Take(flowB.value, 128)
                 && (if Given(startA) then Given(startB) && Take(startA.value, 128) == Take(startB.value, 128)
                     else !Given(startB))
  {
    var s, t := ExplicitSessionToken(a, flowA, startA).value, ExplicitSessionToken(b, flowB, startB).value;
    var p, q := Take(flowA.value, 128), Take(flowB.value, 128);
    var x := if Given(startA) then ":" + Take(startA.value, 128) else "";
    var y := if Given(startB) then ":" + Take(startB.value, 128) else "";
    assert s[9..] == p + x && t[9..] == q + y;
    if s == t {
      SplitAtColon(p, x, q, y);
      assert Given(startA) ==> x[1..] == Take(startA.value, 128);
      assert Given(startB) ==> y[1..] == Take(startB.value, 128);
    }
  }

  /** What follows the prefix of a flow token. */
  function FlowText(flow: string, start: Option<string>): string {
    Take(flow, 128) + if Given(start) then ":" + Take(start.value, 128) else ""
  }

  /** The first n characters can be a flow id, and what follows them nothing or a start. */
  predicate ReadsAsFlow(text: string, n: nat) {
    && 1 <= n <= 128 && n <= |text|
    && (n == |text| || (text[n] == ':' && 1 <= |text| - n - 1 <= 128))
  }

  /** Two flows are one to the token: the same 128 characters of id and of start. */
  predicate SameFlow(flowA: string, startA: Option<string>, flowB: string, startB: Option<string>) {
    && Take(flowA, 128) == Take(flowB, 128)
    && (if Given(startA) then Given(startB) && Take(startA.value, 128) == Take(startB.value, 128) else !Given(startB))
  }

  /** A flow is alone with its token exactly when the text has no other reading, such as at another colon. */
  lemma FlowsToldApart(flow: string, start: Option<string>)
    requires flow != ""
    ensures (forall n: nat | ReadsAsFlow(FlowText(flow, start), n) :: n == |Take(flow, 128)|)
            <==> forall other, since | other != "" && ExplicitSessionToken(None, Some(other), since)
                                                      == ExplicitSessionToken(None, Some(flow), start) ::
                   SameFlow(flow, start, other, since)
  {
    var text := FlowText(flow, start);
    forall other, since | other != ""
      ensures ExplicitSessionToken(None, Some(other), since) == ExplicitSessionToken(None, Some(flow), start)
              <==> FlowText(other, since) == text
    {
      FlowTokenText(other, since);
      FlowTokenText(flow, start);
    }
    if forall n: nat | ReadsAsFlow(text, n) :: n == |Take(flow, 128)| {
      forall other, since | other != "" && FlowText(other, since) == text ensures SameFlow(flow, start, other, since) {
        FlowReading(other, since);
        FlowReading(flow, start);
      }
    } else {
      var n: nat :| ReadsAsFlow(text, n) && n != |Take(flow, 128)|;
      var other, since := text[..n], if n == |text| then None else Some(text[n + 1..]);
      assert FlowText(other, since) == text;
      assert !SameFlow(flow, start, other, since);
    }
  }

  lemma FlowTokenText(flow: string, start: Option<string>)
    requires flow != ""
    ensures ExplicitSessionToken(None, Some(flow), start).Some?
    ensures var token := ExplicitSessionToken(None, Some(flow), start).value;
            token == "suricata:" + FlowText(flow, start) && token[9..] == FlowText(flow, start)
  {
  }

  lemma FlowReading(flow: string, start: Option<string>)
    requires flow != ""
    ensures var text, n := FlowText(flow, start), |Take(flow, 128)|;
            && ReadsAsFlow(text, n) && Take(flow, 128) == text[..n] && (Given(start) <==> n < |text|)
            && (Given(start) ==> Take(start.value, 128) == text[n + 1..])
  {
  }

  /** With a colon in the id they can meet otherwise. */
  lemma FlowTokensCollide()
    ensures ExplicitSessionToken(None, Some("7:x"), None) == ExplicitSessionToken(None, Some("7"), Some("x"))
  {
    assert "suricata:" + "7:x" + "" == "suricata:" + "7" + (":" + "x");
    assert Take("7:x", 128) == "7:x" && Take("7", 128) == "7" && Take("x", 128) == "x";
  }

  function Digit(d: nat): char
    requires d < 10
  {
    '0' + d as char
  }

  /** str() of a non-negative integer. */
  function Decimal(n: nat): (s: string)
    ensures s != [] && '|' !in s
  {
    if n < 10 then [Digit(n)] else Decimal(n / 10) + [Digit(n % 10)]
  }

  lemma {:induction false} DecimalInjective(m: nat, n: nat)
    requires Decimal(m) == Decimal(n)
    ensures m == n
  {
    var s, t := Decimal(m), Decimal(n);
    assert s[|s| - 1] == Digit(m % 10) && t[|t| - 1] == Digit(n % 10);
    if m >= 10 && n >= 10 {
      assert s[..|s| - 1] == Decimal(m / 10) && t[..|t| - 1] == Decimal(n / 10);
      DecimalInjective(m / 10, n / 10);
    }
  }

  /** The text that is hashed into a session id: the identity parts and a suffix, joined by bars. */
  function RawKey(identity: Identity, suffix: string): string {
    identity.sourceIp + "|" + (identity.honeypot + "|" + (identity.service + "|"
      + (identity.protocol + "|" + (Decimal(identity.port) + "|" + suffix))))
  }

  /** The order of the parts. */
  lemma RawKeyText()
    ensures RawKey(Identity("a", "b", "c", "d", 7), "x") == "a|b|c|d|7|x"
  {
    assert Decimal(7) == "7";
    hide Decimal;
    assert "c" + "|" + ("d" + "|" + ("7" + "|" + "x")) == "c|d|7|x";
    assert "a" + "|" + ("b" + "|" + "c|d|7|x") == "a|b|c|d|7|x";
  }

  ghost predicate BarFree(identity: Identity) {
    '|' !in identity.sourceIp && '|' !in identity.honeypot && '|' !in identity.service && '|' !in identity.protocol
  }

  lemma {:induction false} FirstBar(p: string, q: string, x: string, y: string)
    requires '|' !in p && '|' !in q && p + "|" + x == q + "|" + y
    ensures p == q && x == y
  {
    var s := p + "|" + x;
    assert s[|p|] == '|' && s[|q|] == '|';
    assert forall i | 0 <= i < |p| :: s[i] == p[i];
    assert forall i | 0 <= i < |q| :: s[i] == q[i];
    assert |p| == |q|;
    assert p == s[..|p|] == q;
    assert x == s[|p| + 1..] == y;
  }

  lemma LastBar(p: string, q: string, x: string, y: string)
    requires '|' !in x && '|' !in y && p + "|" + x == q + "|" + y
    ensures p == q && x == y
  {
    var s := p + "|" + x;
    assert s[|p|] == '|' && s[|q|] == '|';
    assert forall i | |p| < i < |s| :: s[i] == x[i - |p| - 1];
    assert forall i | |q| < i < |s| :: s[i] == y[i - |q| - 1];
    assert |p| == |q|;
    assert p == s[..|p|] == q;
    assert x == s[|p| + 1..] == y;
  }

  /** Identities without bars are told apart by the hashed text, whatever the suffixes. */
  lemma RawKeyInjective(a: Identity, b: Identity, x: string, y: string)
    requires BarFree(a) && BarFree(b) && RawKey(a, x) == RawKey(b, y)
    ensures a == b && x == y
  {
    var a3, b3 := Decimal(a.port) + "|" + x, Decimal(b.port) + "|" + y;
    var a2, b2 := a.protocol + "|" + a3, b.protocol + "|" + b3;
    var a1, b1 := a.service + "|" + a2, b.service + "|" + b2;
    var a0, b0 := a.honeypot + "|" + a1, b.honeypot + "|" + b1;
    FirstBar(a.sourceIp, b.sourceIp, a0, b0);
    FirstBar(a.honeypot, b.honeypot, a1, b1);
    FirstBar(a.service, b.service, a2, b2);
    FirstBar(a.protocol, b.protocol, a3, b3);
    FirstBar(Decimal(a.port), Decimal(b.port), x, y);
    DecimalInjective(a.port, b.port);
  }

  function Bars(s: string): nat {
    multiset(s)['|']
  }

  lemma BarsOfKey(a: Identity, x: string)
    ensures Bars(RawKey(a, x)) ==
            5 + Bars(a.sourceIp) + Bars(a.honeypot) + Bars(a.service) + Bars(a.protocol) + Bars(x)
    ensures BarFree(a) <==> Bars(a.sourceIp) + Bars(a.honeypot) + Bars(a.service) + Bars(a.protocol) == 0
  {
    BarsJoined(Decimal(a.port), x);
    BarsJoined(a.protocol, Decimal(a.port) + "|" + x);
    BarsJoined(a.service, a.protocol + "|" + (Decimal(a.port) + "|" + x));
    BarsJoined(a.honeypot, a.service + "|" + (a.protocol + "|" + (Decimal(a.port) + "|" + x)));
    BarsJoined(a.sourceIp, a.honeypot + "|" + (a.service + "|" + (a.protocol + "|" + (Decimal(a.port) + "|" + x))));
  }

  lemma BarsJoined(s: string, t: string)
    ensures Bars(s + "|" + t) == Bars(s) + 1 + Bars(t)
    ensures Bars(s) == 0 <==> '|' !in s
  {
  }

  lemma SplitAtBar(s: string) returns (left: string, right: string)
    requires '|' in s
    ensures s == left + "|" + right
  {
    var i :| 0 <= i < |s| && s[i] == '|';
    left, right := s[..i], s[i + 1..];
  }

  lemma Regrouped(p: string, q: string, rest: string)
    ensures (p + "|" + q) + "|" + rest == p + "|" + (q + "|" + rest)
  {
  }

  /** A bar inside a field can be read as the border to its neighbour. */
  lemma BarMoves(a: Identity, x: string) returns (b: Identity)
    requires !BarFree(a)
    ensures b != a && RawKey(b, x) == RawKey(a, x)
  {
    var rest3 := Decimal(a.port) + "|" + x;
    var rest2 := a.protocol + "|" + rest3;
    var rest1 := a.service + "|" + rest2;
    if '|' in a.sourceIp {
      var left, right := SplitAtBar(a.sourceIp);
      b := a.(sourceIp := left, honeypot := right + "|" + a.honeypot);
      Regrouped(left, right, a.honeypot + "|" + rest1);
      Regrouped(right, a.honeypot, rest1);
    } else if '|' in a.honeypot {
      var left, right := SplitAtBar(a.honeypot);
      b := a.(honeypot := left, service := right + "|" + a.service);
      Regrouped(left, right, rest1);
      Regrouped(right, a.service, rest2);
    } else if '|' in a.service {
      var left, right := SplitAtBar(a.service);
      b := a.(service := left, protocol := right + "|" + a.protocol);
      Regrouped(left, right, rest2);
      Regrouped(right, a.protocol, rest3);
    } else {
      var left, right := SplitAtBar(a.protocol);
      b := a.(service := a.service + "|" + left, protocol := right);
      Regrouped(a.service, left, right + "|" + rest3);
      Regrouped(left, right, rest3);
    }
  }

  /** Exactly the identities without bars are alone with their hashed text among the keys with the same suffix. */
  lemma ToldApart(a: Identity, x: string)
    ensures BarFree(a) <==> forall b :: RawKey(b, x) == RawKey(a, x) ==> b == a
  {
    hide RawKey, Bars;
    if BarFree(a) {
      forall b | RawKey(b, x) == RawKey(a, x) ensures b == a {
        BarsOfKey(a, x);
        BarsOfKey(b, x);
        RawKeyInjective(a, b, x, x);
      }
    } else {
      var b := BarMoves(a, x);
    }
  }

  /** The same across suffixes without bars, such as the starts of sessions. */
  lemma ToldApartInTime(a: Identity, x: string)
    requires '|' !in x
    ensures BarFree(a) <==> forall b, y | '|' !in y && RawKey(b, y) == RawKey(a, x) :: b == a && y == x
  {
    hide RawKey, Bars;
    if BarFree(a) {
      forall b, y | '|' !in y && RawKey(b, y) == RawKey(a, x) ensures b == a && y == x {
        BarsOfKey(a, x);
        BarsOfKey(b, y);
        BarsJoined(x, y);
        BarsJoined(y, x);
        RawKeyInjective(a, b, x, y);
      }
    } else {
      var b := BarMoves(a, x);
    }
  }

  // ----- keys with different suffixes

  function Fields(a: Identity): string {
    a.sourceIp + "|" + (a.honeypot + "|" + (a.service + "|" + a.protocol))
  }

  /** Everything before the suffix. */
  function Head(a: Identity): string {
    Fields(a) + "|" + Decimal(a.port)
  }

  lemma KeyIsHead(a: Identity, x: string)
    ensures RawKey(a, x) == Head(a) + "|" + x
  {
    var rest := Decimal(a.port) + "|" + x;
    Regrouped(Fields(a), Decimal(a.port), x);
    Regrouped(a.sourceIp, a.honeypot + "|" + (a.service + "|" + a.protocol), rest);
    Regrouped(a.honeypot, a.service + "|" + a.protocol, rest);
    Regrouped(a.service, a.protocol, rest);
  }

  /** Of two readings of one text, the longer first part holds the shorter one. */
  lemma CutApart(p: string, x: string, q: string, y: string) returns (z: string)
    requires p + "|" + x == q + "|" + y && |p| < |q|
    ensures q == p + "|" + z && x == z + "|" + y
  {
    var s := p + "|" + x;
    assert s[|p|] == '|' && q == s[..|q|] && x == s[|p| + 1..] && y == s[|q| + 1..] && p == s[..|p|];
    z := s[|p| + 1..|q|];
    assert q == s[..|p|] + [s[|p|]] + z;
    assert x == z + [s[|q|]] + y && s[|q|] == '|';
  }

  lemma SameLength(p: string, x: string, q: string, y: string)
    requires p + "|" + x == q + "|" + y && |p| == |q|
    ensures p == q && x == y
  {
    assert p == (p + "|" + x)[..|p|] && q == (q + "|" + y)[..|q|];
    assert x == (p + "|" + x)[|p| + 1..] && y == (q + "|" + y)[|q| + 1..];
  }

  lemma SameHeadLength(a: Identity, x: string, b: Identity, y: string)
    requires RawKey(a, x) == RawKey(b, y) && |Head(a)| == |Head(b)|
    ensures x == y && RawKey(a, y) == RawKey(b, y)
  {
    hide RawKey, Head;
    KeyIsHead(a, x);
    KeyIsHead(b, y);
    SameLength(Head(a), x, Head(b), y);
  }

  /** The suffix has a decimal number between bars, or before its first bar, that can be read as a port. */
  ghost predicate HoldsPort(x: string) {
    || (exists m: nat, q :: x == Decimal(m) + "|" + q)
    || (exists p, m: nat, q :: x == p + "|" + (Decimal(m) + "|" + q))
  }

  /** A longer head reads part of the suffix as fields and a port. */
  lemma LongerHead(a: Identity, x: string, b: Identity, y: string)
    requires RawKey(a, x) == RawKey(b, y) && |Head(a)| < |Head(b)|
    ensures x == Decimal(b.port) + "|" + y || exists p :: x == p + "|" + (Decimal(b.port) + "|" + y)
  {
    hide RawKey, Decimal, Fields;
    KeyIsHead(a, x);
    KeyIsHead(b, y);
    var z := CutApart(Head(a), x, Head(b), y);
    if '|' !in z {
      LastBar(Head(a), Fields(b), z, Decimal(b.port));
    } else {
      var p, d := SplitAtLastBar(z);
      Regrouped(Head(a), p, d);
      LastBar(Head(a) + "|" + p, Fields(b), d, Decimal(b.port));
      Regrouped(p, d, y);
    }
  }

  lemma {:induction false} SplitAtLastBar(s: string) returns (left: string, right: string)
    requires '|' in s
    ensures s == left + "|" + right && '|' !in right
  {
    if s[|s| - 1] == '|' {
      left, right := s[..|s| - 1], "";
    } else {
      left, right := SplitAtLastBar(s[..|s| - 1]);
      right := right + [s[|s| - 1]];
    }
  }

  lemma BarsOfHead(a: Identity)
    ensures Bars(Head(a)) == 4 + Bars(a.sourceIp) + Bars(a.honeypot) + Bars(a.service) + Bars(a.protocol)
    ensures BarFree(a) <==> Bars(Head(a)) == 4
  {
    hide RawKey;
    BarsOfKey(a, "");
    KeyIsHead(a, "");
    BarsJoined(Head(a), "");
  }

  /** A number in the suffix makes room for a rival whose protocol swallows the text before it. */
  lemma PortRival(a: Identity, x: string, m: nat, q: string) returns (b: Identity)
    requires x == Decimal(m) + "|" + q
    ensures b == a.(protocol := a.protocol + "|" + Decimal(a.port), port := m) && RawKey(b, q) == RawKey(a, x)
  {
    b := a.(protocol := a.protocol + "|" + Decimal(a.port), port := m);
    Regrouped(a.protocol, Decimal(a.port), x);
  }

  lemma DeeperPortRival(a: Identity, x: string, p: string, m: nat, q: string) returns (b: Identity)
    requires x == p + "|" + (Decimal(m) + "|" + q)
    ensures b == a.(protocol := a.protocol + "|" + (Decimal(a.port) + "|" + p), port := m)
    ensures RawKey(b, q) == RawKey(a, x)
  {
    b := a.(protocol := a.protocol + "|" + (Decimal(a.port) + "|" + p), port := m);
    var rest := Decimal(m) + "|" + q;
    Regrouped(a.protocol, Decimal(a.port) + "|" + p, rest);
    Regrouped(Decimal(a.port), p, rest);
  }

  /** Exactly these pairs are alone with their hashed text among all identities and all suffixes. */
  lemma ToldApartAlways(a: Identity, x: string)
    ensures BarFree(a) && !HoldsPort(x) <==> forall b, y | RawKey(b, y) == RawKey(a, x) :: b == a && y == x
  {
    hide RawKey, Bars, BarFree, Head, Decimal;
    if !BarFree(a) {
      var b := BarMoves(a, x);
    } else if HoldsPort(x) {
      if m: nat, q :| x == Decimal(m) + "|" + q {
        var b := PortRival(a, x, m, q);
        assert |q| < |x|;
      } else {
        var p, m: nat, q :| x == p + "|" + (Decimal(m) + "|" + q);
        var b := DeeperPortRival(a, x, p, m, q);
        assert |q| < |x|;
      }
    } else {
      forall b, y | RawKey(b, y) == RawKey(a, x) ensures b == a && y == x {
        OnlyReading(a, x, b, y);
      }
    }
  }

  lemma OnlyReading(a: Identity, x: string, b: Identity, y: string)
    requires BarFree(a) && !HoldsPort(x) && RawKey(b, y) == RawKey(a, x)
    ensures b == a && y == x
  {
    hide RawKey, Bars, BarFree, Head, Decimal;
    KeyIsHead(a, x);
    KeyIsHead(b, y);
    BarsOfHead(a);
    BarsOfHead(b);
    if |Head(a)| < |Head(b)| {
      LongerHead(a, x, b, y);
      assert false;
    } else if |Head(b)| < |Head(a)| {
      var z := CutApart(Head(b), y, Head(a), x);
      BarsJoined(Head(b), z);
      assert false;
    } else {
      SameLength(Head(a), x, Head(b), y);
      RawKeyInjective(a, b, x, y);
    }
  }

  // ----- the identities and tokens of accepted events

  /** The text up to the first bar. */
  function FirstPart(s: string): string {
    if s == "" || s[0] == '|' then "" else [s[0]] + FirstPart(s[1..])
  }

  lemma {:induction false} FirstPartIs(p: string, rest: string)
    ensures FirstPart(p + "|" + rest) == FirstPart(p)
    ensures '|' !in p ==> FirstPart(p) == p
  {
    if p == "" {
      assert (p + "|" + rest)[0] == '|';
    } else {
      FirstPartIs(p[1..], rest);
      assert (p + "|" + rest)[1..] == p[1..] + "|" + rest && (p + "|" + rest)[0] == p[0];
    }
  }

  /**
   * What ingest lets through: an address as the address module writes it, a honeypot name of safe characters, and
   * no empty part. An IPv6 address keeps its scope as it came, bars included.
   */
  ghost predicate FromEvent(address: string -> bool, a: Identity) {
    && address(a.sourceIp) && Normalizer.SafeKey(a.honeypot) && a.service != "" && a.protocol != "" && a.port <= 65535
  }

  lemma SafeKeyIsPlain(key: string)
    requires Normalizer.SafeKey(key)
    ensures key != "" && '|' !in key
  {
    forall i | 0 <= i < |key| ensures key[i] != '|' {
      assert Normalizer.SafeChar(key[i]);
    }
  }

  /** SessionIdentity makes such an identity from the fields of an accepted event. */
  lemma IdentityFromEvent(address: string -> bool, sourceIp: Option<string>, honeypot: Option<string>,
                          service: Option<string>, protocol: Option<string>, port: Option<nat>)
    requires address("unknown") && (Given(sourceIp) ==> address(sourceIp.value))
    requires (Given(honeypot) ==> Normalizer.SafeKey(honeypot.value)) && (port.Some? ==> port.value <= 65535)
    ensures FromEvent(address, SessionIdentity(sourceIp, honeypot, service, protocol, port))
  {
    assert Normalizer.SafeKey("unknown");
  }

  /**
   * The bars that cannot be read as a border: in an address where no address ends or no honeypot name follows, one
   * that opens the service, one that closes the protocol.
   */
  ghost predicate BarsHarmless(address: string -> bool, a: Identity) {
    && (forall i | 0 <= i < |a.sourceIp| && a.sourceIp[i] == '|' && address(a.sourceIp[..i]) ::
          !Normalizer.SafeKey(FirstPart(a.sourceIp[i + 1..])))
    && (forall i | 0 < i < |a.service| :: a.service[i] != '|')
    && (forall i | 0 <= i < |a.protocol| - 1 :: a.protocol[i] != '|')
  }

  lemma SameHead(a: Identity, b: Identity, x: string)
    requires RawKey(a, x) == RawKey(b, x)
    ensures Fields(a) == Fields(b) && a.port == b.port
  {
    hide RawKey, Decimal, Fields;
    KeyIsHead(a, x);
    KeyIsHead(b, x);
    assert |Head(a)| == |Head(b)|;
    SameLength(Head(a), x, Head(b), x);
    LastBar(Fields(a), Fields(b), Decimal(a.port), Decimal(b.port));
    DecimalInjective(a.port, b.port);
  }

  lemma OneBorder(address: string -> bool, a: Identity, b: Identity)
    requires BarsHarmless(address, a) && b.service != "" && b.protocol != ""
    requires a.service + "|" + a.protocol == b.service + "|" + b.protocol
    ensures a.service == b.service && a.protocol == b.protocol
  {
    var s := a.service + "|" + a.protocol;
    assert forall i | 0 <= i < |a.service| :: s[i] == a.service[i];
    assert forall i | |a.service| < i < |s| :: s[i] == a.protocol[i - |a.service| - 1];
    assert s[|b.service|] == '|';
    assert |a.service| == |b.service|;
    assert a.service == s[..|a.service|] == b.service;
    assert a.protocol == s[|a.service| + 1..] == b.protocol;
  }

  /** Service and protocol of a hold one border at most where a rival needs two. */
  lemma NoTwoBorders(address: string -> bool, a: Identity, s: string, before: int, between: int)
    requires BarsHarmless(address, a) && s == a.service + "|" + a.protocol
    requires 0 < before < between < |s| - 1 && s[before] == '|'
    ensures s[between] != '|'
  {
    assert forall i | 0 <= i < |a.service| :: s[i] == a.service[i];
    assert forall i | |a.service| < i < |s| :: s[i] == a.protocol[i - |a.service| - 1];
  }

  lemma ShorterAddress(address: string -> bool, a: Identity, b: Identity)
    requires FromEvent(address, b) && Fields(a) == Fields(b) && |b.sourceIp| < |a.sourceIp|
    ensures !BarsHarmless(address, a)
  {
    hide Normalizer.SafeKey, FirstPart;
    var restA := a.honeypot + "|" + (a.service + "|" + a.protocol);
    var restB := b.honeypot + "|" + (b.service + "|" + b.protocol);
    var z := CutApart(b.sourceIp, restB, a.sourceIp, restA);
    SafeKeyIsPlain(b.honeypot);
    FirstPartIs(b.honeypot, b.service + "|" + b.protocol);
    FirstPartIs(z, restA);
    var i := |b.sourceIp|;
    assert a.sourceIp[i] == '|' && a.sourceIp[..i] == b.sourceIp && a.sourceIp[i + 1..] == z;
  }

  lemma LongerAddress(address: string -> bool, a: Identity, b: Identity)
    requires FromEvent(address, a) && FromEvent(address, b) && Fields(a) == Fields(b)
    requires |a.sourceIp| < |b.sourceIp|
    ensures !BarsHarmless(address, a)
  {
    hide Normalizer.SafeKey, FirstPart, BarsHarmless;
    var s, tail := a.service + "|" + a.protocol, b.service + "|" + b.protocol;
    var restB := b.honeypot + "|" + tail;
    var z := CutApart(a.sourceIp, a.honeypot + "|" + s, b.sourceIp, restB);
    SafeKeyIsPlain(a.honeypot);
    SafeKeyIsPlain(b.honeypot);
    var skipped := "";
    if |z| < |a.honeypot| {
      var y := CutApart(z, restB, a.honeypot, s);
      assert false;
    } else if |z| > |a.honeypot| {
      var y := CutApart(a.honeypot, s, z, restB);
      skipped := y + "|";
      assert s == skipped + restB;
    } else {
      SameLength(a.honeypot, s, z, restB);
      assert s == skipped + restB;
    }
    var before := |skipped| + |b.honeypot|;
    var between := before + 1 + |b.service|;
    assert s == skipped + (b.honeypot + "|" + (b.service + "|" + b.protocol));
    assert s[before] == '|' && s[between] == '|' && between < |s| - 1;
    if BarsHarmless(address, a) {
      NoTwoBorders(address, a, s, before, between);
    }
  }

  lemma HarmfulBarMoves(address: string -> bool, a: Identity, x: string) returns (b: Identity)
    requires FromEvent(address, a) && !BarsHarmless(address, a)
    ensures b != a && FromEvent(address, b) && RawKey(b, x) == RawKey(a, x)
  {
    hide Normalizer.SafeKey, FirstPart;
    var rest := Decimal(a.port) + "|" + x;
    if i :| 0 < i < |a.service| && a.service[i] == '|' {
      var left, right := a.service[..i], a.service[i + 1..];
      assert a.service == left + "|" + right;
      b := a.(service := left, protocol := right + "|" + a.protocol);
      Regrouped(left, right, a.protocol + "|" + rest);
      Regrouped(right, a.protocol, rest);
    } else if i :| 0 <= i < |a.protocol| - 1 && a.protocol[i] == '|' {
      var left, right := a.protocol[..i], a.protocol[i + 1..];
      assert a.protocol == left + "|" + right;
      b := a.(service := a.service + "|" + left, protocol := right);
      Regrouped(a.service, left, right + "|" + rest);
      Regrouped(left, right, rest);
    } else {
      var i :| 0 <= i < |a.sourceIp| && a.sourceIp[i] == '|' && address(a.sourceIp[..i])
               && Normalizer.SafeKey(FirstPart(a.sourceIp[i + 1..]));
      b := AddressBarMoves(address, a, x, i);
    }
  }

  lemma AddressBarMoves(address: string -> bool, a: Identity, x: string, i: nat) returns (b: Identity)
    requires FromEvent(address, a) && i < |a.sourceIp| && a.sourceIp[i] == '|' && address(a.sourceIp[..i])
    requires Normalizer.SafeKey(FirstPart(a.sourceIp[i + 1..]))
    ensures b != a && FromEvent(address, b) && RawKey(b, x) == RawKey(a, x)
  {
    hide Normalizer.SafeKey, FirstPart;
    var left, right := a.sourceIp[..i], a.sourceIp[i + 1..];
    assert a.sourceIp == left + "|" + right;
    var rest2 := a.protocol + "|" + (Decimal(a.port) + "|" + x);
    var rest1 := a.service + "|" + rest2;
    Regrouped(left, right, a.honeypot + "|" + rest1);
    FirstPartSplits(right);
    if FirstPart(right) == right {
      b := a.(sourceIp := left, honeypot := right, service := a.honeypot + "|" + a.service);
      Regrouped(a.honeypot, a.service, rest2);
    } else {
      var name, more := FirstPart(right), right[|FirstPart(right)| + 1..];
      b := a.(sourceIp := left, honeypot := name, service := more + "|" + (a.honeypot + "|" + a.service));
      Regrouped(name, more, a.honeypot + "|" + rest1);
      Regrouped(more, a.honeypot + "|" + a.service, rest2);
      Regrouped(a.honeypot, a.service, rest2);
    }
  }

  lemma {:induction false} FirstPartSplits(s: string)
    ensures FirstPart(s) <= s
    ensures FirstPart(s) != s ==>
              |FirstPart(s)| < |s| && s == FirstPart(s) + "|" + s[|FirstPart(s)| + 1..]
  {
    if s != "" && s[0] != '|' {
      FirstPartSplits(s[1..]);
      assert s == [s[0]] + s[1..];
    } else if s != "" {
      assert s == "" + "|" + s[1..];
    }
  }

  /** Among the identities of accepted events under one suffix: exactly when every bar is harmless. */
  lemma EventsToldApart(address: string -> bool, a: Identity, x: string)
    requires FromEvent(address, a)
    ensures BarsHarmless(address, a) <==> forall b | FromEvent(address, b) && RawKey(b, x) == RawKey(a, x) :: b == a
  {
    hide RawKey, BarsHarmless, FromEvent;
    if BarsHarmless(address, a) {
      forall b | FromEvent(address, b) && RawKey(b, x) == RawKey(a, x) ensures b == a {
        SameHead(a, b, x);
        SameFields(address, a, b);
      }
    } else {
      var b := HarmfulBarMoves(address, a, x);
    }
  }

  lemma SameFields(address: string -> bool, a: Identity, b: Identity)
    requires FromEvent(address, a) && FromEvent(address, b) && BarsHarmless(address, a)
    requires Fields(a) == Fields(b) && a.port == b.port
    ensures a == b
  {
    hide BarsHarmless, Normalizer.SafeKey;
    if |b.sourceIp| < |a.sourceIp| {
      ShorterAddress(address, a, b);
      assert false;
    } else if |b.sourceIp| > |a.sourceIp| {
      LongerAddress(address, a, b);
      assert false;
    } else {
      SafeKeyIsPlain(a.honeypot);
      SafeKeyIsPlain(b.honeypot);
      SameLength(a.sourceIp, a.honeypot + "|" + (a.service + "|" + a.protocol),
                 b.sourceIp, b.honeypot + "|" + (b.service + "|" + b.protocol));
      FirstBar(a.honeypot, b.honeypot, a.service + "|" + a.protocol, b.service + "|" + b.protocol);
      OneBorder(address, a, b);
    }
  }

  /** What explicit_session_token can return. */
  ghost predicate IsToken(x: string) {
    exists session, flow, start :: ExplicitSessionToken(session, flow, start) == Some(x)
  }

  lemma {:induction false} DecimalStart(n: nat)
    ensures Decimal(n) != "" && '0' <= Decimal(n)[0] <= '9'
  {
    if n >= 10 {
      DecimalStart(n / 10);
      assert Decimal(n)[0] == Decimal(n / 10)[0];
    }
  }

  lemma NoLeadingPort(x: string, m: nat, y: string)
    requires IsToken(x)
    ensures x != Decimal(m) + "|" + y
  {
    DecimalStart(m);
    assert (Decimal(m) + "|" + y)[0] == Decimal(m)[0];
  }

  /** The token has a port number behind a bar, followed by another token. */
  ghost predicate PortInToken(x: string) {
    exists p, m: nat, q :: m <= 65535 && IsToken(q) && x == p + "|" + (Decimal(m) + "|" + q)
  }

  /** The fields hold another identity and a port, and what follows them makes another token. */
  ghost predicate TokenInFields(address: string -> bool, a: Identity, x: string) {
    exists b, r :: FromEvent(address, b) && Fields(a) == Head(b) + "|" + r
                   && IsToken(r + "|" + (Decimal(a.port) + "|" + x))
  }

  /** Only bars in the fields make room for that. */
  lemma BarFreeHoldsNoToken(address: string -> bool, a: Identity, x: string)
    requires BarFree(a)
    ensures !TokenInFields(address, a, x)
  {
    hide Bars, BarFree, Fields, IsToken, FromEvent, Decimal;
    forall b, r | Fields(a) == Head(b) + "|" + r ensures false {
      BarsOfHead(a);
      BarsOfHead(b);
      BarsJoined(Fields(a), Decimal(a.port));
      BarsJoined(Head(b), r);
    }
  }

  /**
   * Among the identities and tokens of accepted events: exactly when the bars of the identity are harmless, the
   * token holds no port before another token, and the fields hold no other identity before one.
   */
  lemma TokensToldApart(address: string -> bool, a: Identity, x: string)
    requires FromEvent(address, a) && IsToken(x)
    ensures BarsHarmless(address, a) && !PortInToken(x) && !TokenInFields(address, a, x)
            <==> forall b, y | FromEvent(address, b) && IsToken(y) && RawKey(b, y) == RawKey(a, x) :: b == a && y == x
  {
    hide RawKey, Head, BarsHarmless, FromEvent, IsToken, PortInToken, TokenInFields;
    if !BarsHarmless(address, a) {
      var b := HarmfulBarMoves(address, a, x);
    } else if PortInToken(x) {
      var b, y := PortInTokenRival(address, a, x);
    } else if TokenInFields(address, a, x) {
      var b, y := TokenInFieldsRival(address, a, x);
    } else {
      forall b, y | FromEvent(address, b) && IsToken(y) && RawKey(b, y) == RawKey(a, x) ensures b == a && y == x {
        if |Head(a)| < |Head(b)| {
          LaterToken(address, a, x, b, y);
          assert false;
        } else if |Head(b)| < |Head(a)| {
          EarlierToken(address, a, x, b, y);
          assert false;
        } else {
          SameHeadLength(a, x, b, y);
          EventsToldApart(address, a, x);
        }
      }
    }
  }

  lemma PortInTokenRival(address: string -> bool, a: Identity, x: string) returns (b: Identity, y: string)
    requires FromEvent(address, a) && PortInToken(x)
    ensures FromEvent(address, b) && IsToken(y) && RawKey(b, y) == RawKey(a, x) && y != x
  {
    hide RawKey, IsToken, Normalizer.SafeKey, Decimal;
    var p, m: nat, q :| m <= 65535 && IsToken(q) && x == p + "|" + (Decimal(m) + "|" + q);
    b := DeeperPortRival(a, x, p, m, q);
    y := q;
    assert |q| < |x|;
  }

  lemma TokenInFieldsRival(address: string -> bool, a: Identity, x: string) returns (b: Identity, y: string)
    requires TokenInFields(address, a, x)
    ensures FromEvent(address, b) && IsToken(y) && RawKey(b, y) == RawKey(a, x) && y != x
  {
    hide RawKey, IsToken, FromEvent, Fields, Decimal;
    var c, r :| FromEvent(address, c) && Fields(a) == Head(c) + "|" + r
                && IsToken(r + "|" + (Decimal(a.port) + "|" + x));
    b, y := c, r + "|" + (Decimal(a.port) + "|" + x);
    KeyIsHead(a, x);
    KeyIsHead(b, y);
    Regrouped(Fields(a), Decimal(a.port), x);
    Regrouped(Head(c), r, Decimal(a.port) + "|" + x);
    assert |y| > |x|;
  }

  lemma LaterToken(address: string -> bool, a: Identity, x: string, b: Identity, y: string)
    requires FromEvent(address, b) && IsToken(x) && IsToken(y)
    requires RawKey(b, y) == RawKey(a, x) && |Head(a)| < |Head(b)|
    ensures PortInToken(x)
  {
    hide RawKey, IsToken, Decimal, Head, Fields, Normalizer.SafeKey;
    NoLeadingPort(x, b.port, y);
    LongerHead(a, x, b, y);
  }

  lemma EarlierToken(address: string -> bool, a: Identity, x: string, b: Identity, y: string)
    requires FromEvent(address, b) && IsToken(y) && RawKey(b, y) == RawKey(a, x) && |Head(b)| < |Head(a)|
    ensures TokenInFields(address, a, x)
  {
    hide RawKey, IsToken, Decimal, Fields, FromEvent;
    KeyIsHead(a, x);
    KeyIsHead(b, y);
    var z := CutApart(Head(b), y, Head(a), x);
    NoLeadingPort(y, a.port, x);
    if '|' !in z {
      LastBar(Head(b), Fields(a), z, Decimal(a.port));
      assert false;
    } else {
      var r, d := SplitAtLastBar(z);
      Regrouped(Head(b), r, d);
      LastBar(Head(b) + "|" + r, Fields(a), d, Decimal(a.port));
      Regrouped(r, d, x);
    }
  }

  ghost predicate Fits(a: Identity) {
    && |a.sourceIp| <= Normalizer.MAX_STRING && |a.honeypot| <= Normalizer.MAX_STRING
    && |a.service| <= Normalizer.MAX_STRING && |a.protocol| <= Normalizer.MAX_STRING
  }

  /** While the hashed text is no longer than one string may be, every rival is within the limits too. */
  lemma RivalsFit(a: Identity, x: string, b: Identity, y: string)
    requires RawKey(a, x) == RawKey(b, y) && |RawKey(a, x)| <= Normalizer.MAX_STRING
    ensures Fits(b)
  {
    hide Decimal;
    assert |RawKey(b, y)| >= |b.sourceIp| + |b.honeypot| + |b.service| + |b.protocol|;
  }

  /** A bar inside a service name can make two identities share every session id. */
  lemma BarsCollide(suffix: string)
    ensures var a := Identity("198.51.100.7", "web-1", "http|alt", "tcp", 80);
            var b := Identity("198.51.100.7", "web-1", "http", "alt|tcp", 80);
            a != b && RawKey(a, suffix) == RawKey(b, suffix)
  {
    var rest := Decimal(80) + "|" + suffix;
    assert "http|alt" + "|" + ("tcp" + "|" + rest) == "http" + "|" + ("alt|tcp" + "|" + rest);
  }

  /** So can a bar in the scope of an address. */
  lemma ScopesCollide(suffix: string)
    ensures var a := Identity("fe80::1%e|web-1", "web-2", "http", "tcp", 80);
            var b := Identity("fe80::1%e", "web-1", "web-2|http", "tcp", 80);
            a != b && RawKey(a, suffix) == RawKey(b, suffix)
  {
    var rest := "tcp" + "|" + (Decimal(80) + "|" + suffix);
    assert "fe80::1%e|web-1" + "|" + ("web-2" + "|" + ("http" + "|" + rest))
        == "fe80::1%e" + "|" + ("web-1" + "|" + ("web-2|http" + "|" + rest));
  }

  /** And bars in a sensor's session name, between two identities of which one has none. */
  lemma TokensCollide()
    ensures var a := Identity("198.51.100.7", "web-1", "http", "tcp", 80);
            var b := Identity("198.51.100.7", "web-1", "http", "tcp|80|sensor:q", 9);
            var x := ExplicitSessionToken(Some("q|9|sensor:z"), None, None).value;
            var y := ExplicitSessionToken(Some("z"), None, None).value;
            a != b && BarFree(a) && RawKey(a, x) == RawKey(b, y)
  {
    hide Decimal;
    PortTexts();
    var x, y := "sensor:" + "q|9|sensor:z", "sensor:" + "z";
    assert x == "sensor:q" + "|" + ("9" + "|" + y);
    Regrouped("tcp", "80", "sensor:q" + "|" + ("9" + "|" + y));
    Regrouped("tcp" + "|" + "80", "sensor:q", "9" + "|" + y);
    assert "tcp" + "|" + "80" + "|" + "sensor:q" == "tcp|80|sensor:q";
  }

  lemma PortTexts()
    ensures Decimal(80) == "80" && Decimal(9) == "9"
  {
    assert Decimal(8) == "8" && [Digit(0)] == "0";
  }

  // ----- session ids

  /** The hashing and rendering the ids depend on: a digest of text, and the text of an instant. */
  datatype Naming = Naming(digest: string -> string, iso: int -> string)

  /** Different instants have different texts, none with a bar. */
  ghost predicate Legible(n: Naming) {
    && (forall t, u :: n.iso(t) == n.iso(u) ==> t == u)
    && (forall t :: '|' !in n.iso(t))
  }

  function SessionIdFor(n: Naming, identity: Identity, startedAt: int): string {
    "ses_" + n.digest(RawKey(identity, n.iso(startedAt)))
  }

  function SessionIdForExplicit(n: Naming, identity: Identity, token: string): string {
    "sesx_" + n.digest(RawKey(identity, token))
  }

  /** The digest, cut to 20 hexadecimal digits, takes two different texts to one value. */
  ghost predicate Collide(n: Naming, x: string, y: string) {
    x != y && n.digest(x) == n.digest(y)
  }

  /** Ids of the two kinds never meet. */
  lemma KindsDistinct(n: Naming, a: Identity, s: int, b: Identity, token: string)
    ensures SessionIdFor(n, a, s) != SessionIdForExplicit(n, b, token)
  {
    assert SessionIdFor(n, a, s)[3] == '_' && SessionIdForExplicit(n, b, token)[3] == 'x';
  }

  /** Temporal ids meet exactly when instant and hashed text are the same, or the digest collides. */
  lemma TemporalIdsMeet(n: Naming, a: Identity, s: int, b: Identity, t: int)
    requires Legible(n)
    ensures SessionIdFor(n, a, s) == SessionIdFor(n, b, t)
            <==> || (s == t && RawKey(a, n.iso(s)) == RawKey(b, n.iso(s)))
                 || Collide(n, RawKey(a, n.iso(s)), RawKey(b, n.iso(t)))
  {
    hide RawKey, Head;
    assert SessionIdFor(n, a, s)[4..] == n.digest(RawKey(a, n.iso(s)));
    assert SessionIdFor(n, b, t)[4..] == n.digest(RawKey(b, n.iso(t)));
    if RawKey(a, n.iso(s)) == RawKey(b, n.iso(t)) {
      KeyIsHead(a, n.iso(s));
      KeyIsHead(b, n.iso(t));
      LastBar(Head(a), Head(b), n.iso(s), n.iso(t));
    }
  }

  /**
   * A temporal id names one identity and one start: another identity, with bars or without, has it only by a
   * collision of the digest.
   */
  lemma TemporalIdsDistinct(n: Naming, a: Identity, s: int, b: Identity, t: int)
    requires Legible(n) && BarFree(a)
    ensures SessionIdFor(n, a, s) == SessionIdFor(n, b, t)
            <==> (a == b && s == t) || Collide(n, RawKey(a, n.iso(s)), RawKey(b, n.iso(t)))
  {
    hide RawKey, BarFree;
    assert SessionIdFor(n, a, s)[4..] == n.digest(RawKey(a, n.iso(s)));
    assert SessionIdFor(n, b, t)[4..] == n.digest(RawKey(b, n.iso(t)));
    ToldApartInTime(a, n.iso(s));
  }
}
