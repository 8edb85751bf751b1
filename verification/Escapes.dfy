/**
 * The generated Rego escape chain of cadp/deployment/referencePolicy.ts: 34 successive replacements
 * against the one-pass string serialization of section 3.2.2.2 of RFC 8785.
 */
module Escapes {
  import opened JsonText

  /** One `replace(e, target, output)` line. */
  datatype Rule = Rule(target: Unit, output: Text)

  function Controls(n: nat): (rules: seq<Rule>)
    requires n <= 0x20
    ensures |rules| == n && forall i :: 0 <= i < n ==> rules[i] == Rule(i, EscapeUnit(i))
  {
    if n == 0 then [] else Controls(n - 1) + [Rule(n - 1, EscapeUnit(n - 1))]
  }

  /** Backslash, then quote, then the 32 control characters. */
  function JcsEscapes(): (rules: seq<Rule>)
    ensures |rules| == 34
  {
    [Rule(BACKSLASH, [BACKSLASH, BACKSLASH]), Rule(QUOTE, [BACKSLASH, QUOTE])] + Controls(0x20)
  }

  method BuildJcsEscapes() returns (pairs: seq<Rule>)
    ensures pairs == JcsEscapes()
  {
    pairs := [Rule(BACKSLASH, [BACKSLASH, BACKSLASH]), Rule(QUOTE, [BACKSLASH, QUOTE])];
    for code := 0 to 0x20
      invariant pairs == [Rule(BACKSLASH, [BACKSLASH, BACKSLASH]), Rule(QUOTE, [BACKSLASH, QUOTE])] + Controls(code)
    {
      pairs := pairs + [Rule(code, EscapeUnit(code))];
    }
  }

  function Replace(t: Text, r: Rule): Text {
    if t == [] then [] else (if t[0] == r.target then r.output else [t[0]]) + Replace(t[1..], r)
  }

  function Chain(t: Text, rules: seq<Rule>): Text
    decreases |rules|
  {
    if rules == [] then t else Chain(Replace(t, rules[0]), rules[1..])
  }

  function Mapped(u: Unit, rules: seq<Rule>): Text {
    if rules == [] then [u] else if rules[0].target == u then rules[0].output else Mapped(u, rules[1..])
  }

  function OnePass(t: Text, rules: seq<Rule>): Text {
    if t == [] then [] else Mapped(t[0], rules) + OnePass(t[1..], rules)
  }

  /** No later target occurs in text an earlier rule emitted. */
  predicate Ordered(rules: seq<Rule>) {
    forall i, j :: 0 <= i < j < |rules| ==> rules[j].target !in rules[i].output
  }

  lemma {:induction false} ReplaceDistributes(a: Text, b: Text, r: Rule)
    ensures Replace(a + b, r) == Replace(a, r) + Replace(b, r)
  {
    if a == [] {
      assert a + b == b;
    } else {
      ReplaceDistributes(a[1..], b, r);
      assert (a + b)[1..] == a[1..] + b;
    }
  }

  lemma {:induction false} ChainDistributes(a: Text, b: Text, rules: seq<Rule>)
    ensures Chain(a + b, rules) == Chain(a, rules) + Chain(b, rules)
    decreases |rules|
  {
    if rules != [] {
      ReplaceDistributes(a, b, rules[0]);
      ChainDistributes(Replace(a, rules[0]), Replace(b, rules[0]), rules[1..]);
    }
  }

  lemma {:induction false} ReplaceUntouched(t: Text, r: Rule)
    requires r.target !in t
    ensures Replace(t, r) == t
  {
    if t != [] {
      ReplaceUntouched(t[1..], r);
    }
  }

  lemma {:induction false} ChainUntouched(t: Text, rules: seq<Rule>)
    requires forall j :: 0 <= j < |rules| ==> rules[j].target !in t
    ensures Chain(t, rules) == t
  {
    if rules != [] {
      ReplaceUntouched(t, rules[0]);
      ChainUntouched(t, rules[1..]);
    }
  }

  lemma {:induction false} ChainOnUnit(u: Unit, rules: seq<Rule>)
    requires Ordered(rules)
    ensures Chain([u], rules) == Mapped(u, rules)
  {
    if rules != [] {
      assert Replace([u], rules[0]) == if u == rules[0].target then rules[0].output else [u];
      if u == rules[0].target {
        ChainUntouched(rules[0].output, rules[1..]);
      } else {
        ChainOnUnit(u, rules[1..]);
      }
    }
  }

  /** Main: a chain in which no later target occurs in earlier output is one simultaneous pass. */
  lemma {:induction false} ChainIsOnePass(t: Text, rules: seq<Rule>)
    requires Ordered(rules)
    ensures Chain(t, rules) == OnePass(t, rules)
    decreases |t|
  {
    if t == [] {
      ChainUntouched(t, rules);
    } else {
      assert t == [t[0]] + t[1..];
      ChainDistributes([t[0]], t[1..], rules);
      ChainOnUnit(t[0], rules);
      ChainIsOnePass(t[1..], rules);
    }
  }

  lemma EscapeIsPrintable(u: Unit)
    requires u < 0x20
    ensures forall k :: 0 <= k < |EscapeUnit(u)| ==> 0x20 <= EscapeUnit(u)[k]
  {}

  lemma EscapeAt(i: nat)
    requires i < 34
    ensures 2 <= i ==> JcsEscapes()[i] == Rule(i - 2, EscapeUnit(i - 2))
    ensures JcsEscapes()[0] == Rule(BACKSLASH, [BACKSLASH, BACKSLASH])
      && JcsEscapes()[1] == Rule(QUOTE, [BACKSLASH, QUOTE])
  {
    hide EscapeUnit;
  }

  lemma EscapesAreOrdered()
    ensures Ordered(JcsEscapes())
  {
    hide EscapeUnit, JcsEscapes;
    var rules := JcsEscapes();
    forall i, j | 0 <= i < j < |rules| ensures rules[j].target !in rules[i].output {
      EscapeAt(i);
      EscapeAt(j);
      if 2 <= i {
        EscapeIsPrintable(i - 2);
      }
    }
  }

  // ---------------------------------------------------------------- against RFC 8785

  lemma {:induction false} ControlIsMapped(u: Unit, n: nat, rules: seq<Rule>)
    requires n <= |rules| <= 0x20 && forall i :: n <= i < |rules| ==> rules[i] == Rule(i, EscapeUnit(i))
    requires n <= u
    ensures Mapped(u, rules[n..]) == if u < |rules| then EscapeUnit(u) else [u]
    decreases |rules| - n
  {
    if n < |rules| && u != n {
      ControlIsMapped(u, n + 1, rules);
      assert rules[n..][1..] == rules[n + 1..];
    }
  }

  lemma EscapedCases(u: Unit)
    ensures EscapeUnit(BACKSLASH) == [BACKSLASH, BACKSLASH] && EscapeUnit(QUOTE) == [BACKSLASH, QUOTE]
    ensures 0x20 <= u && u != BACKSLASH && u != QUOTE && !High(u) && !Low(u) ==> EscapeUnit(u) == [u]
  {}

  /** What the chain makes of one unit: the RFC 8785 escape, except that surrogates are left alone. */
  lemma UnitIsMapped(u: Unit)
    ensures Mapped(u, JcsEscapes()) == if High(u) || Low(u) then [u] else EscapeUnit(u)
  {
    hide EscapeUnit, Controls;
    EscapedCases(u);
    ControlIsMapped(u, 0, Controls(0x20));
    assert Controls(0x20)[0..] == Controls(0x20);
    assert JcsEscapes()[1..][1..] == Controls(0x20);
  }

  lemma {:induction false} OnePassMeetsRfc(s: Text)
    ensures |OnePass(s, JcsEscapes())| <= |Escape(s)|
    ensures PairedSurrogates(s) ==> OnePass(s, JcsEscapes()) == Escape(s)
    ensures !PairedSurrogates(s) ==> |OnePass(s, JcsEscapes())| < |Escape(s)|
    decreases |s|
  {
    hide JcsEscapes;
    if s != [] {
      UnitIsMapped(s[0]);
      if Pair(s) {
        UnitIsMapped(s[1]);
        OnePassMeetsRfc(s[2..]);
        assert s[1..][1..] == s[2..];
      } else {
        OnePassMeetsRfc(s[1..]);
      }
    }
  }

  /** Main: the generated chain writes exactly the RFC 8785 string when, and only when, no surrogate is alone. */
  lemma JcsStringIsExact(s: Text)
    ensures [QUOTE] + Chain(s, JcsEscapes()) + [QUOTE] == PrintString(s) <==> PairedSurrogates(s)
  {
    EscapesAreOrdered();
    ChainIsOnePass(s, JcsEscapes());
    OnePassMeetsRfc(s);
    var chained, escaped := [QUOTE] + Chain(s, JcsEscapes()) + [QUOTE], PrintString(s);
    if chained == escaped {
      assert |Chain(s, JcsEscapes())| == |Escape(s)|;
    }
  }

  /** The order is load-bearing: with the quote first, a quote comes out with its backslash escaped again. */
  lemma QuoteFirstIsWrong()
    ensures var swapped := [Rule(QUOTE, [BACKSLASH, QUOTE]), Rule(BACKSLASH, [BACKSLASH, BACKSLASH])];
      && !Ordered(swapped)
      && Chain([QUOTE], swapped) == [BACKSLASH, BACKSLASH, QUOTE] != OnePass([QUOTE], swapped)
  {
    var swapped := [Rule(QUOTE, [BACKSLASH, QUOTE]), Rule(BACKSLASH, [BACKSLASH, BACKSLASH])];
    assert Replace([QUOTE], swapped[0]) == [BACKSLASH, QUOTE];
    assert Replace([BACKSLASH, QUOTE], swapped[1]) == [BACKSLASH, BACKSLASH, QUOTE] by {
      assert [BACKSLASH, QUOTE][1..] == [QUOTE] && Replace([QUOTE], swapped[1]) == [QUOTE];
    }
    assert swapped[1..] == [swapped[1]];
    assert Chain([BACKSLASH, QUOTE], swapped[1..]) == [BACKSLASH, BACKSLASH, QUOTE];
    assert swapped[1].target in swapped[0].output;
  }
}
