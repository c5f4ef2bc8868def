/** Routes and their text form: src/router.c. Regular expressions are abstract: `compiles`
    says which patterns `regcomp` takes, `matches` what `regexec` answers. */
module Router {
  import opened Common
  import opened Strings

  datatype Kind = KindRoute | KindAlias | KindRedirect

  /** A route as a value. */
  datatype Rule = Rule(pattern: string, target: string, kind: Kind)

  type Matcher = (string, string) -> bool

  // ----- the router -----

  /** httpserv_route_t. */
  class Route {
    const rule: Rule
    var next: Route?

    constructor (r: Rule)
      ensures rule == r && next == null
    {
      rule, next := r, null;
    }
  }

  /** httpserv_router_t. `added` are the routes in the order of their addition. */
  class Router {
    var head: Route?
    ghost var added: seq<Route>

    /** The chain from head visits the routes from the last added to the first. */
    ghost predicate Valid()
      reads this, added
    {
      && (forall i, k | 0 <= i < k < |added| :: added[i] != added[k])
      && head == (if added == [] then null else added[|added| - 1])
      && (forall i | 0 < i < |added| :: added[i].next == added[i - 1])
      && (added != [] ==> added[0].next == null)
    }

    ghost function Rules(): seq<Rule>
      reads this, added
    {
      seq(|added|, i requires 0 <= i < |added| reads this, added => added[i].rule)
    }

    constructor ()
      ensures Valid() && added == []
    {
      head, added := null, [];
    }

    /** `httpserv_router_add_route`; without a router nothing happens. */
    static method AddRoute(router: Router?, route: Route)
      requires router != null ==> router.Valid() && route !in router.added
      modifies router, route`next
      ensures router != null ==> router.Valid() && router.added == old(router.added) + [route]
      ensures router == null ==> route.next == old(route.next)
    {
      if router == null {
        return;
      }
      route.next := router.head;
      router.head := route;
      router.added := router.added + [route];
    }

    /** `httpserv_router_lookup`: nothing without a router or a query; otherwise the cursor
        stops at the first match, and the route found is withheld if its target is the query
        itself. */
    static method Lookup(router: Router?, query: Option<string>, matches: Matcher) returns (r: Route?)
      requires query.Some? ==> NulFree(query.value)
      requires router != null ==>
                 router.Valid() && forall i | 0 <= i < |router.added| :: NulFree(router.added[i].rule.target)
      ensures router == null || query == None ==> r == null
      ensures router != null && query.Some? ==>
                var found := Resolve(router.Rules(), query.value, matches);
                if r == null then found == None else r in router.added && found == Some(r.rule)
    {
      if router == null || query == None {
        return null;
      }
      r := router.head;
      ghost var rules, n := router.Rules(), |router.added|;
      assert rules[..n] == rules;
      while r != null
        invariant 0 <= n <= |router.added|
        invariant r == (if n == 0 then null else router.added[n - 1])
        invariant LastMatch(rules, query.value, matches) == LastMatch(rules[..n], query.value, matches)
        decreases n
      {
        assert rules[..n][..n - 1] == rules[..n - 1];
        if matches(r.rule.pattern, query.value) {
          break;
        }
        r := r.next;
        n := n - 1;
      }
      if r != null {
        StreqIsEquality(r.rule.target, query.value);
        if Streq(r.rule.target, query.value) == 0 {
          return null;
        }
      }
    }
  }

  /** The rule added last among those that match. */
  function LastMatch(rules: seq<Rule>, query: string, matches: Matcher): Option<Rule> {
    if rules == [] then None
    else if matches(rules[|rules| - 1].pattern, query) then Some(rules[|rules| - 1])
    else LastMatch(rules[..|rules| - 1], query, matches)
  }

  function Resolve(rules: seq<Rule>, query: string, matches: Matcher): Option<Rule> {
    var m := LastMatch(rules, query, matches);
    if m.Some? && m.value.target == query then None else m
  }

  /** A matching rule hides all older ones and is hidden by none that does not match: what
      is resolved after more additions is decided by the newest match alone, and a match
      whose target is the query itself resolves to nothing instead of to an older rule. */
  lemma {:induction false} NewestMatchDecides(older: seq<Rule>, rule: Rule, newer: seq<Rule>, query: string, matches: Matcher)
    requires matches(rule.pattern, query)
    requires forall r | r in newer :: !matches(r.pattern, query)
    ensures Resolve(older + [rule] + newer, query, matches) == (if rule.target == query then None else Some(rule))
    decreases |newer|
  {
    var all := older + [rule] + newer;
    if newer == [] {
      assert all == older + [rule];
    } else {
      NewestMatchDecides(older, rule, newer[..|newer| - 1], query, matches);
      assert all[..|all| - 1] == older + [rule] + newer[..|newer| - 1];
      assert all[|all| - 1] == newer[|newer| - 1];
    }
  }

  /** Every set of rules is of that form, or none of its rules matches and nothing resolves. */
  lemma {:induction false} NewestMatchExists(rules: seq<Rule>, query: string, matches: Matcher)
      returns (older: seq<Rule>, rule: Rule, newer: seq<Rule>)
    requires exists r :: r in rules && matches(r.pattern, query)
    ensures rules == older + [rule] + newer && matches(rule.pattern, query)
    ensures forall r | r in newer :: !matches(r.pattern, query)
  {
    var n := |rules| - 1;
    older, rule, newer := rules[..n], rules[n], [];
    if !matches(rule.pattern, query) {
      var r :| r in rules && matches(r.pattern, query);
      assert rules == rules[..n] + [rules[n]];
      assert r in rules[..n];
      older, rule, newer := NewestMatchExists(rules[..n], query, matches);
      newer := newer + [rules[n]];
    }
  }

  lemma {:induction false} NoMatchResolvesNothing(rules: seq<Rule>, query: string, matches: Matcher)
    requires forall r | r in rules :: !matches(r.pattern, query)
    ensures Resolve(rules, query, matches) == None
  {
    if rules != [] {
      NoMatchResolvesNothing(rules[..|rules| - 1], query, matches);
    }
  }

  /** A lookup after any sequence of additions. */
  method LookupAfter(rules: seq<Rule>, query: string, matches: Matcher) returns (r: Option<Rule>)
    requires NulFree(query) && forall i | 0 <= i < |rules| :: NulFree(rules[i].target)
    ensures r == Resolve(rules, query, matches)
  {
    var router := new Router();
    for n := 0 to |rules|
      invariant fresh(router) && router.Valid() && |router.added| == n
      invariant forall i | 0 <= i < n :: fresh(router.added[i]) && router.added[i].rule == rules[i]
    {
      var route := new Route(rules[n]);
      Router.AddRoute(router, route);
    }
    assert router.Rules() == rules;
    var route := Router.Lookup(router, Some(query), matches);
    r := if route == null then None else Some(route.rule);
  }

  // ----- the text form -----

  predicate ArrowAt(line: string, i: nat) {
    i + 1 < |line| && line[i] == '=' && line[i + 1] == '>'
  }

  /** The first "=>" in the line, or the length of the line. */
  function Arrow(line: string): (i: nat)
    ensures i <= |line| && (i < |line| ==> ArrowAt(line, i))
    ensures forall k: nat | k < i :: !ArrowAt(line, k)
  {
    if line == "" || ArrowAt(line, 0) then 0
    else
      var i := 1 + Arrow(line[1..]);
      assert forall k: nat | 0 < k < i :: ArrowAt(line, k) ==> ArrowAt(line[1..], k - 1);
      i
  }

  function UpToBar(s: string): (r: string)
    ensures r <= s && '|' !in r && (|r| < |s| ==> s[|r|] == '|')
  {
    if s == "" || s[0] == '|' then "" else [s[0]] + UpToBar(s[1..])
  }

  /** What a route line means: everything before the first "=>" is the pattern, what follows
      up to a bar is the target, and a bar makes the route one of the 302 kind. */
  function LineRule(line: string): Rule {
    var k := Arrow(line);
    if k == |line| then Rule(line, "", KindAlias)
    else
      var rest := line[k + 2..];
      var target := UpToBar(rest);
      Rule(line[..k], target, if |target| < |rest| then KindRoute else KindAlias)
  }

  /** The kind behind a bar, found by comparing n bytes. The caller passes 0, so that the
      first comparison always succeeds. */
  function KindAfterBar(s: string, n: nat): Option<Kind> {
    if Strncmp(s, "route", n) == 0 then Some(KindRoute)
    else if Strncmp(s, "alias", n) == 0 then Some(KindAlias)
    else if Strncmp(s, "redirect", n) == 0 then Some(KindRedirect)
    else None
  }

  lemma StartsWithArrow(line: string, i: nat)
    requires NulFree(line) && i < |line|
    ensures Strncmp(line[i..], "=>", 2) == 0 <==> ArrowAt(line, i)
  {
  }

  lemma {:induction false} UpToBarIs(s: string, n: nat)
    requires n <= |s| && '|' !in s[..n] && (n < |s| ==> s[n] == '|')
    ensures UpToBar(s) == s[..n]
  {
  }

  lemma SliceGrows(s: string, a: nat, i: nat)
    requires a <= i < |s|
    ensures s[a..i + 1] == s[a..i] + [s[i]] && s[i] in s
  {
  }

  lemma RuleOfParts(line: string, k: nat, rest: string, target: string)
    requires k == Arrow(line) < |line| && rest == line[k + 2..] && target == UpToBar(rest)
    ensures LineRule(line) == Rule(line[..k], target, if |target| < |rest| then KindRoute else KindAlias)
  {
  }

  lemma LineRuleRead(line: string, k: nat, i: nat)
    requires k == Arrow(line) && k + 2 <= i <= |line|
    requires '|' !in line[k + 2..i] && (i < |line| ==> line[i] == '|')
    ensures LineRule(line) == Rule(line[..k], line[k + 2..i], if i < |line| then KindRoute else KindAlias)
  {
    TargetRead(line, k + 2, i);
    RuleOfParts(line, k, line[k + 2..], line[k + 2..i]);
  }

  lemma TargetRead(s: string, a: nat, i: nat)
    requires a <= i <= |s|
    requires '|' !in s[a..i] && (i < |s| ==> s[i] == '|')
    ensures UpToBar(s[a..]) == s[a..i] && (|UpToBar(s[a..])| < |s[a..]| <==> i < |s|)
  {
    SliceOfRest(s, a, i);
    UpToBarIs(s[a..], i - a);
  }

  lemma SliceOfRest(s: string, a: nat, i: nat)
    requires a <= i <= |s|
    ensures s[a..][..i - a] == s[a..i]
    ensures |s[a..]| == |s| - a && (i < |s| ==> s[a..][i - a] == s[i])
  {
  }

  /** A line without "=>" is all pattern. */
  lemma NoArrowIsPattern(line: string)
    ensures NoPair(line, '=', '>') ==> LineRule(line) == Rule(line, "", KindAlias)
  {
    if Arrow(line) < |line| {
      assert ArrowAt(line, Arrow(line));
    }
  }

  /** `__httpserv_parse_line`; None if the pattern does not compile. */
  method ParseLine(line: string, compiles: string -> bool) returns (r: Option<Rule>)
    requires NulFree(line)
    ensures r == if compiles(LineRule(line).pattern) then Some(LineRule(line)) else None
    ensures NoPair(line, '=', '>') ==> r == if compiles(line) then Some(Rule(line, "", KindAlias)) else None
  {
    NoArrowIsPattern(line);
    var pattern, target, kind := "", "", KindAlias;
    var patternRead := false;
    var i := 0;
    ghost var k := Arrow(line);
    while i < |line|
      invariant i <= |line|
      invariant kind == KindAlias
      invariant !patternRead ==> i <= k && pattern == line[..i] && target == ""
      invariant patternRead ==> k + 2 <= i && pattern == line[..k] && target == line[k + 2..i] && '|' !in target
    {
      if patternRead {
        SliceGrows(line, k + 2, i);
        if line[i] == '|' {
          var parsed := KindAfterBar(line[i..], 0);
          if parsed.Some? {
            kind := parsed.value;
          }
          LineRuleRead(line, k, i);
          break;
        }
        target := Cat(target, line[i]);
        i := i + 1;
        continue;
      }
      StartsWithArrow(line, i);
      if Strncmp(line[i..], "=>", 2) == 0 {
        patternRead := true;
        i := i + 2;
        continue;
      }
      SliceGrows(line, 0, i);
      pattern := Cat(pattern, line[i]);
      i := i + 1;
    }
    if patternRead {
      LineRuleRead(line, k, i);
    } else {
      assert line[..i] == line;
    }
    r := if compiles(pattern) then Some(Rule(pattern, target, kind)) else None;
  }

  lemma ArrowIs(p: string, t: string)
    requires NoPair(p, '=', '>')
    ensures Arrow(p + "=>" + t) == |p|
  {
    var line := p + "=>" + t;
    assert ArrowAt(line, |p|);
    forall k: nat | k < |p|
      ensures !ArrowAt(line, k)
    {
      assert line[k] == p[k] && line[k + 1] == if k + 1 < |p| then p[k + 1] else '=';
    }
  }

  /** Route text: a pattern without "=>" (it may well end in '=') and a target without a bar
      are read back exactly; text behind a bar never changes them. */
  lemma RouteTextRoundTrip(p: string, t: string, suffix: string)
    requires NoPair(p, '=', '>') && '|' !in t
    ensures LineRule(p + "=>" + t) == Rule(p, t, KindAlias)
    ensures LineRule(p + "=>" + t + "|" + suffix) == Rule(p, t, KindRoute)
  {
    ArrowIs(p, t);
    var line := p + "=>" + t;
    assert line[..|p|] == p && line[|p| + 2..] == t && t[..|t|] == t;
    UpToBarIs(t, |t|);
    var rest := t + ("|" + suffix);
    ArrowIs(p, rest);
    var long := p + "=>" + rest;
    assert line + "|" + suffix == long;
    assert long[..|p|] == p && long[|p| + 2..] == rest && rest[..|t|] == t;
    UpToBarIs(rest, |t|);
  }

  /** There are no other lines than those three kinds. */
  lemma RouteLines(line: string) returns (p: string, t: string, suffix: string)
    ensures NoPair(p, '=', '>') && '|' !in t
    ensures line == p || line == p + "=>" + t || line == p + "=>" + t + "|" + suffix
  {
    var k := Arrow(line);
    p, t, suffix := line[..k], "", "";
    forall i | 0 <= i < k - 1
      ensures !(p[i] == '=' && p[i + 1] == '>')
    {
      assert !ArrowAt(line, i);
    }
    if k < |line| {
      var rest := line[k + 2..];
      t := UpToBar(rest);
      assert line == p + "=>" + rest;
      if |t| < |rest| {
        suffix := rest[|t| + 1..];
        assert rest == t + "|" + suffix;
        Assoc(p + "=>", t + "|", suffix);
        Assoc(p + "=>", t, "|");
      } else {
        assert rest == t;
      }
    } else {
      assert p == line;
    }
  }

  /** The documented kinds are not what the code makes of them: `|alias` and `|redirect`
      give a route of the 302 kind like every other suffix. */
  lemma SuffixKindsAreIgnored(p: string, t: string)
    requires NoPair(p, '=', '>') && '|' !in t
    ensures LineRule(p + "=>" + t + "|" + "alias").kind == KindRoute
    ensures LineRule(p + "=>" + t + "|" + "redirect").kind == KindRoute
  {
    RouteTextRoundTrip(p, t, "alias");
    RouteTextRoundTrip(p, t, "redirect");
  }
}
