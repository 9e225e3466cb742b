/** Which endpoints are encrypted: route templates compiled to anchored patterns, and the first rule
    that matches a request. */
module RoutePolicy {
  import opened Text

  // ----- finding tokens -----

  /** How many characters at the front are neither a slash nor a closing brace. */
  function Span(s: string): (n: nat)
    ensures n <= |s|
  {
    if |s| > 0 && s[0] != '/' && s[0] != '}' then 1 + Span(s[1..]) else 0
  }

  /** The length of the `{name}` the text starts with, or zero. */
  function TokenLength(s: string): (n: nat)
    ensures n <= |s|
  {
    if |s| == 0 || s[0] != '{' then 0
    else
      var name := Span(s[1..]);
      if name > 0 && name + 1 < |s| && s[name + 1] == '}' then name + 2 else 0
  }

  lemma {:induction false} SpanIs(s: string, n: nat)
    ensures Span(s) == n <==>
            && n <= |s| && (forall k :: 0 <= k < n ==> s[k] != '/' && s[k] != '}')
            && (n < |s| ==> s[n] == '/' || s[n] == '}')
  {
    if |s| > 0 && s[0] != '/' && s[0] != '}' {
      if n > 0 {
        SpanIs(s[1..], n - 1);
        assert n <= |s| ==> forall k :: 1 <= k < n ==> s[1..][k - 1] == s[k];
      }
    }
  }

  /** A token is an opening brace, one or more characters other than a slash or a closing brace, and a
      closing brace. */
  lemma TokenMeans(s: string, n: nat)
    requires n > 0
    ensures TokenLength(s) == n <==>
            && 3 <= n <= |s| && s[0] == '{' && s[n - 1] == '}'
            && forall k :: 1 <= k < n - 1 ==> s[k] != '/' && s[k] != '}'
  {
    if |s| > 0 && s[0] == '{' {
      var name := Span(s[1..]);
      SpanIs(s[1..], name);
      if n >= 2 {
        SpanIs(s[1..], n - 2);
      }
      assert forall k :: 1 <= k < |s| ==> s[1..][k - 1] == s[k];
    }
  }

  /** Where `FindStringIndex` finds a token; the end of the text when there is none. */
  function TokenStart(s: string): (start: nat)
    ensures start <= |s|
  {
    if |s| == 0 || TokenLength(s) > 0 then 0 else 1 + TokenStart(s[1..])
  }

  /** What is found is the leftmost token. */
  lemma {:induction false} FindsLeftmost(s: string)
    ensures forall k :: 0 <= k < TokenStart(s) ==> TokenLength(s[k..]) == 0
    ensures TokenStart(s) < |s| ==> TokenLength(s[TokenStart(s)..]) > 0
  {
    assert s[0..] == s;
    if |s| > 0 && TokenLength(s) == 0 {
      FindsLeftmost(s[1..]);
      forall k | 1 <= k <= |s| ensures s[1..][k - 1..] == s[k..] { }
      forall k | 0 <= k < TokenStart(s) ensures TokenLength(s[k..]) == 0 {
        assert k > 0 ==> TokenLength(s[1..][k - 1..]) == 0;
      }
    }
  }

  // ----- patterns -----

  /** A quoted character, or `[^/]+`. */
  datatype Elem = Lit(c: char) | Seg

  type Pattern = seq<Elem>

  function Quote(s: string): Pattern {
    seq(|s|, i requires 0 <= i < |s| => Lit(s[i]))
  }

  function Compile(template: string): Pattern {
    if |template| == 0 then []
    else if TokenLength(template) > 0 then [Seg] + Compile(template[TokenLength(template)..])
    else [Lit(template[0])] + Compile(template[1..])
  }

  /** Whether the anchored pattern matches the whole text. */
  predicate Matches(p: Pattern, s: string)
    decreases |p|
  {
    if |p| == 0 then s == ""
    else if p[0] == Seg then exists n :: 1 <= n <= |s| && '/' !in s[..n] && Matches(p[1..], s[n..])
    else |s| > 0 && s[0] == p[0].c && Matches(p[1..], s[1..])
  }

  lemma CompileOne(s: string)
    requires |s| > 0 && TokenLength(s) == 0
    ensures Compile(s) == [Lit(s[0])] + Compile(s[1..])
  {
  }

  /** Up to its first token a template is quoted. */
  lemma {:induction false} QuotedUpTo(s: string, k: nat)
    requires k <= |s| && forall i :: 0 <= i < k ==> TokenLength(s[i..]) == 0
    ensures Compile(s) == Quote(s[..k]) + Compile(s[k..])
  {
    if k == 0 {
      assert s[0..] == s && Quote(s[..0]) + Compile(s) == Compile(s);
    } else {
      QuotedUpTo(s, k - 1);
      CompileOne(s[k - 1..]);
      QuoteOneMore(s, k, Compile(s[k..]));
    }
  }

  lemma QuoteOneMore(s: string, k: nat, rest: Pattern)
    requires 0 < k <= |s|
    ensures s[k - 1..][0] == s[k - 1] && s[k - 1..][1..] == s[k..]
    ensures Quote(s[..k - 1]) + ([Lit(s[k - 1])] + rest) == Quote(s[..k]) + rest
  {
  }

  /** The template up to its first token, the token, and the rest. */
  lemma CompileToToken(s: string)
    ensures var i := TokenStart(s);
            if i == |s| then Compile(s) == Quote(s)
            else Compile(s) == Quote(s[..i]) + [Seg] + Compile(s[i..][TokenLength(s[i..])..])
  {
    var i := TokenStart(s);
    FindsLeftmost(s);
    QuotedUpTo(s, i);
    if i == |s| {
      assert s[..i] == s && Quote(s) + [] == Quote(s);
    } else {
      Associative(Quote(s[..i]), [Seg], Compile(s[i..][TokenLength(s[i..])..]));
    }
  }

  /** Shrinks what remains of the template, one token at a time. */
  method CompilePathPattern(path: string) returns (pattern: Pattern)
    ensures pattern == Compile(path)
  {
    pattern := [];
    var remaining := path;
    while true
      invariant pattern + Compile(remaining) == Compile(path)
      decreases |remaining|
    {
      var start := TokenStart(remaining);
      CompileToToken(remaining);
      if start == |remaining| {
        pattern := pattern + Quote(remaining);
        break;
      }
      FindsLeftmost(remaining);
      var front, token := Quote(remaining[..start]) + [Seg], remaining[start..];
      var rest := token[TokenLength(token)..];
      Associative(pattern, front, Compile(rest));
      pattern := pattern + front;
      remaining := rest;
    }
  }

  // ----- a template matches segment by segment -----

  ghost predicate Slashless(p: Pattern) {
    forall i :: 0 <= i < |p| ==> p[i] != Lit('/')
  }

  lemma CutShift(s: string, n: nat)
    requires n <= |s| && '/' !in s[..n]
    ensures '/' in s <==> '/' in s[n..]
    ensures '/' in s ==> n <= IndexOf(s, '/') && IndexOf(s[n..], '/') == IndexOf(s, '/') - n
  {
    forall k | 0 <= k < n ensures s[k] != '/' { assert s[..n][k] in s[..n]; }
    assert s == s[..n] + s[n..];
    if '/' in s {
      IndexShift(s, n, IndexOf(s, '/'));
    }
  }

  lemma IndexShift(s: string, n: nat, i: nat)
    requires n <= i < |s| && s[i] == '/' && '/' !in s[..i]
    ensures '/' in s[n..] && IndexOf(s[n..], '/') == i - n
  {
    var x := s[n..][..i - n];
    forall k | 0 <= k < |x| ensures x[k] != '/' { assert x[k] == s[..i][n + k]; }
    IndexOfUnique(s[n..], '/', i - n);
  }

  lemma {:induction false} SlashlessMatch(p: Pattern, s: string)
    requires Slashless(p) && Matches(p, s)
    ensures '/' !in s
    decreases |p|
  {
    if |p| > 0 {
      var n := 1;
      if p[0] == Seg {
        n :| 1 <= n <= |s| && '/' !in s[..n] && Matches(p[1..], s[n..]);
      } else {
        assert s[..1] == [s[0]];
      }
      SlashlessMatch(p[1..], s[n..]);
      assert s == s[..n] + s[n..];
    }
  }

  /** Where the first slash of the text is, as the pattern sees it. */
  ghost predicate CutMatches(p: Pattern, q: Pattern, s: string) {
    '/' in s && Matches(p, s[..IndexOf(s, '/')]) && Matches(q, s[IndexOf(s, '/') + 1..])
  }

  lemma CutMatchesShift(p: Pattern, q: Pattern, s: string, n: nat)
    requires n <= |s| && '/' !in s[..n]
    ensures CutMatches(p, q, s[n..])
            <==> '/' in s && n <= IndexOf(s, '/') && Matches(p, s[..IndexOf(s, '/')][n..])
                 && Matches(q, s[IndexOf(s, '/') + 1..])
  {
    CutShift(s, n);
    if '/' in s {
      SameCut(s, n, IndexOf(s, '/'));
    }
  }

  lemma SameCut(s: string, n: nat, i: nat)
    requires n <= i < |s|
    ensures s[n..][..i - n] == s[..i][n..] && s[n..][i - n + 1..] == s[i + 1..]
  {
  }

  /** A slash in the pattern is the first slash of the text. */
  lemma {:induction false} CutAtSlash(p: Pattern, q: Pattern, s: string)
    requires Slashless(p)
    ensures Matches(p + [Lit('/')] + q, s) <==> CutMatches(p, q, s)
    decreases |p|
  {
    var whole := p + [Lit('/')] + q;
    if |p| == 0 {
      assert whole == [Lit('/')] + q && whole[1..] == q;
      if |s| > 0 && s[0] == '/' {
        IndexOfUnique(s, '/', 0);
      }
    } else {
      assert whole[0] == p[0] && whole[1..] == p[1..] + [Lit('/')] + q;
      forall n | 1 <= n <= |s| ensures Matches(whole[1..], s[n..]) <==> CutMatches(p[1..], q, s[n..]) {
        CutAtSlash(p[1..], q, s[n..]);
      }
      if p[0] == Seg {
        if n :| 1 <= n <= |s| && '/' !in s[..n] && CutMatches(p[1..], q, s[n..]) {
          CutSegment(p, q, s, n);
        }
        if CutMatches(p, q, s) {
          SegmentCut(p, q, s);
        }
      } else if |s| > 0 && s[0] == p[0].c {
        assert s[..1] == [s[0]];
        CutMatchesShift(p[1..], q, s, 1);
      }
    }
  }

  /** The step of `CutAtSlash` for a token, one way and the other. */
  lemma CutSegment(p: Pattern, q: Pattern, s: string, n: nat)
    requires |p| > 0 && p[0] == Seg && 1 <= n <= |s| && '/' !in s[..n]
    requires CutMatches(p[1..], q, s[n..])
    ensures CutMatches(p, q, s)
  {
    CutMatchesShift(p[1..], q, s, n);
    var x := s[..IndexOf(s, '/')];
    assert x[..n] == s[..n];
    SegmentMatches(p, x, n);
  }

  lemma SegmentMatches(p: Pattern, x: string, n: nat)
    requires |p| > 0 && p[0] == Seg && 1 <= n <= |x| && '/' !in x[..n] && Matches(p[1..], x[n..])
    ensures Matches(p, x)
  {
  }

  lemma SegmentCut(p: Pattern, q: Pattern, s: string)
    requires |p| > 0 && p[0] == Seg && CutMatches(p, q, s)
    ensures exists n :: 1 <= n <= |s| && '/' !in s[..n] && CutMatches(p[1..], q, s[n..])
  {
    var x := s[..IndexOf(s, '/')];
    var n :| 1 <= n <= |x| && '/' !in x[..n] && Matches(p[1..], x[n..]);
    assert x[..n] == s[..n];
    CutMatchesShift(p[1..], q, s, n);
  }

  lemma {:induction false} SpanStops(a: string, b: string)
    requires '/' !in a
    ensures Span(a + "/" + b) == Span(a)
  {
    var s := a + "/" + b;
    if |a| > 0 && a[0] != '}' {
      assert a[0] in a && s[1..] == a[1..] + "/" + b;
      SpanStops(a[1..], b);
    }
  }

  lemma TokenStops(a: string, b: string)
    requires '/' !in a && |a| > 0
    ensures TokenLength(a + "/" + b) == TokenLength(a)
  {
    var s := a + "/" + b;
    if a[0] == '{' {
      assert s[1..] == a[1..] + "/" + b;
      SpanStops(a[1..], b);
      assert Span(a[1..]) + 1 == |a| ==> s[|a|] == '/';
    }
  }

  /** No token reaches across a slash. */
  lemma {:induction false} CompileAtSlash(a: string, b: string)
    requires '/' !in a
    ensures Compile(a + "/" + b) == Compile(a) + [Lit('/')] + Compile(b)
    decreases |a|
  {
    var s := a + "/" + b;
    if |a| == 0 {
      assert s[1..] == b;
    } else {
      TokenStops(a, b);
      var n := if TokenLength(a) > 0 then TokenLength(a) else 1;
      assert s[n..] == a[n..] + "/" + b;
      CompileAtSlash(a[n..], b);
      Associative([Compile(a)[0]], Compile(a[n..]), [Lit('/')]);
      Associative([Compile(a)[0]], Compile(a[n..]) + [Lit('/')], Compile(b));
    }
  }

  lemma {:induction false} CompileSlashless(a: string)
    requires '/' !in a
    ensures Slashless(Compile(a))
    decreases |a|
  {
    if |a| > 0 {
      var n := if TokenLength(a) > 0 then TokenLength(a) else 1;
      CompileSlashless(a[n..]);
      assert a[0] in a;
    }
  }

  ghost predicate SegmentsMatch(templates: seq<string>, segments: seq<string>) {
    |templates| == |segments| && forall i :: 0 <= i < |templates| ==> Matches(Compile(templates[i]), segments[i])
  }

  lemma SegmentsMatchCons(templates: seq<string>, segments: seq<string>)
    requires |templates| > 0 && |segments| > 0
    ensures SegmentsMatch(templates, segments)
            <==> Matches(Compile(templates[0]), segments[0]) && SegmentsMatch(templates[1..], segments[1..])
  {
    if Matches(Compile(templates[0]), segments[0]) && SegmentsMatch(templates[1..], segments[1..]) {
      forall i | 0 <= i < |templates| ensures Matches(Compile(templates[i]), segments[i]) {
        assert i > 0 ==> templates[i] == templates[1..][i - 1] && segments[i] == segments[1..][i - 1];
      }
    }
    if SegmentsMatch(templates, segments) {
      forall i | 0 <= i < |templates| - 1 ensures Matches(Compile(templates[1..][i]), segments[1..][i]) {
        assert templates[1..][i] == templates[i + 1] && segments[1..][i] == segments[i + 1];
      }
    }
  }

  lemma OneSegment(template: string, x: string)
    ensures SegmentsMatch([template], [x]) <==> Matches(Compile(template), x)
  {
    assert [template][0] == template && [x][0] == x;
  }

  /** For every template: the compiled pattern matches a path exactly when both have the same number of
      segments and each segment's own pattern matches the path's segment. */
  lemma {:induction false} MatchIsSegmentwise(template: string, path: string)
    ensures Matches(Compile(template), path) <==> SegmentsMatch(Split(template, '/'), Split(path, '/'))
    decreases |template|
  {
    if '/' !in template {
      SlashlessTemplate(template, path);
    } else {
      MatchAtSlash(template, path);
      SlashInTemplate(template, path);
      if '/' in path {
        MatchIsSegmentwise(template[IndexOf(template, '/') + 1..], path[IndexOf(path, '/') + 1..]);
      }
    }
  }

  /** How matching splits at the first slash... */
  lemma MatchAtSlash(template: string, path: string)
    requires '/' in template
    ensures var i := IndexOf(template, '/');
            Matches(Compile(template), path) <==>
            && '/' in path && Matches(Compile(template[..i]), path[..IndexOf(path, '/')])
            && Matches(Compile(template[i + 1..]), path[IndexOf(path, '/') + 1..])
  {
    var i := IndexOf(template, '/');
    var head, tail := template[..i], template[i + 1..];
    assert template == head + "/" + tail;
    CompileAtSlash(head, tail);
    CompileSlashless(head);
    CutAtSlash(Compile(head), Compile(tail), path);
  }

  lemma SlashlessTemplate(template: string, path: string)
    requires '/' !in template
    ensures Matches(Compile(template), path) <==> SegmentsMatch(Split(template, '/'), Split(path, '/'))
  {
    CompileSlashless(template);
    if '/' in path {
      SplitLonger(path[IndexOf(path, '/') + 1..]);
      if Matches(Compile(template), path) {
        SlashlessMatch(Compile(template), path);
      }
    } else {
      OneSegment(template, path);
    }
  }

  /** ...and how the segments do. */
  lemma SlashInTemplate(template: string, path: string)
    requires '/' in template
    ensures var i := IndexOf(template, '/');
            SegmentsMatch(Split(template, '/'), Split(path, '/')) <==>
            && '/' in path && Matches(Compile(template[..i]), path[..IndexOf(path, '/')])
            && SegmentsMatch(Split(template[i + 1..], '/'), Split(path[IndexOf(path, '/') + 1..], '/'))
  {
    SplitAtSlash(template);
    if '/' in path {
      SplitAtSlash(path);
      SegmentsMatchCons(Split(template, '/'), Split(path, '/'));
    }
  }

  lemma SplitAtSlash(s: string)
    requires '/' in s
    ensures var i, parts := IndexOf(s, '/'), Split(s, '/');
            |parts| > 1 && parts[0] == s[..i] && parts[1..] == Split(s[i + 1..], '/')
  {
    SplitLonger(s[IndexOf(s, '/') + 1..]);
  }

  lemma SplitLonger(tail: string)
    ensures forall head: seq<string> :: |head| == 1 ==> |head + Split(tail, '/')| > 1
  {
  }

  // ----- templates whose tokens fill whole segments -----

  predicate IsToken(segment: string) {
    |segment| > 0 && TokenLength(segment) == |segment|
  }

  predicate IsLiteral(segment: string) {
    TokenStart(segment) == |segment|
  }

  predicate WholeSegments(template: string) {
    forall s :: s in Split(template, '/') ==> IsToken(s) || IsLiteral(s)
  }

  lemma {:induction false} QuoteMatches(s: string, x: string)
    ensures Matches(Quote(s), x) <==> x == s
  {
    if |s| > 0 {
      assert Quote(s)[1..] == Quote(s[1..]);
      assert s == [s[0]] + s[1..];
      if |x| > 0 {
        QuoteMatches(s[1..], x[1..]);
        assert x == [x[0]] + x[1..];
      }
    }
  }

  lemma SegMatches(x: string)
    requires '/' !in x
    ensures Matches([Seg], x) <==> x != ""
  {
    assert [Seg][1..] == [];
    if x != "" {
      assert x[..|x|] == x && x[|x|..] == "";
    }
  }

  predicate SegmentAgrees(template: string, x: string) {
    if IsToken(template) then x != "" else x == template
  }

  /** A path matches when it has the template's number of segments, repeats its literal segments and
      puts something in the place of every token. */
  ghost predicate PathAgrees(template: string, path: string) {
    var ts, xs := Split(template, '/'), Split(path, '/');
    |ts| == |xs| && forall i :: 0 <= i < |ts| ==> SegmentAgrees(ts[i], xs[i])
  }

  lemma SegmentMeaning(template: string, x: string)
    requires '/' !in x && (IsToken(template) || IsLiteral(template))
    ensures Matches(Compile(template), x) <==> SegmentAgrees(template, x)
  {
    if IsToken(template) {
      assert template[|template|..] == "";
      assert Compile(template) == [Seg];
      SegMatches(x);
    } else {
      CompileToToken(template);
      QuoteMatches(template, x);
    }
  }

  /** Compilation preserves the meaning of a template. */
  lemma CompilationPreservesMeaning(template: string, path: string)
    requires WholeSegments(template)
    ensures Matches(Compile(template), path) <==> PathAgrees(template, path)
  {
    MatchIsSegmentwise(template, path);
    var ts, xs := Split(template, '/'), Split(path, '/');
    if |ts| == |xs| {
      forall i | 0 <= i < |ts| ensures Matches(Compile(ts[i]), xs[i]) <==> SegmentAgrees(ts[i], xs[i]) {
        assert ts[i] in ts && xs[i] in xs;
        SegmentMeaning(ts[i], xs[i]);
      }
    }
  }

  // ----- rules -----

  datatype Entry = Entry(httpMethod: string, path: string, decryptRequest: bool, encryptResponse: bool)

  datatype CryptoRule = CryptoRule(
    httpMethod: string, path: string, decryptRequest: bool, encryptResponse: bool, matcher: Pattern)
  {
    predicate Accepts(httpMethod: string, path: string) {
      EqualFold(httpMethod, this.httpMethod) && Matches(matcher, path)
    }
  }

  function UpperChar(c: char): char {
    if 'a' <= c <= 'z' then (c as int - 32) as char else c
  }

  function ToUpper(s: string): string {
    seq(|s|, i requires 0 <= i < |s| => UpperChar(s[i]))
  }

  predicate EqualFold(a: string, b: string) {
    ToLower(a) == ToLower(b)
  }

  function RuleOf(e: Entry): CryptoRule {
    CryptoRule(ToUpper(e.httpMethod), e.path, e.decryptRequest, e.encryptResponse, Compile(e.path))
  }

  /** The rule says of request and response what the entry says. */
  predicate IsRuleFor(rule: Option<CryptoRule>, e: Entry) {
    && rule.Some? && rule.value.path == e.path && rule.value.httpMethod == ToUpper(e.httpMethod)
    && (rule.value.decryptRequest <==> e.decryptRequest) && (rule.value.encryptResponse <==> e.encryptResponse)
  }

  function RulesOf(entries: seq<Entry>): seq<CryptoRule> {
    seq(|entries|, i requires 0 <= i < |entries| => RuleOf(entries[i]))
  }

  method FromEntries(entries: seq<Entry>) returns (rules: seq<CryptoRule>)
    ensures rules == RulesOf(entries)
    ensures |rules| == |entries|
    ensures forall i :: 0 <= i < |rules| ==>
              IsRuleFor(Some(rules[i]), entries[i]) && rules[i].matcher == Compile(entries[i].path)
  {
    rules := [];
    for i := 0 to |entries|
      invariant rules == RulesOf(entries[..i])
    {
      var e := entries[i];
      var matcher := CompilePathPattern(e.path);
      rules := rules + [CryptoRule(ToUpper(e.httpMethod), e.path, e.decryptRequest, e.encryptResponse, matcher)];
    }
    assert entries[..|entries|] == entries;
  }

  function FirstRule(rules: seq<CryptoRule>, httpMethod: string, path: string): Option<CryptoRule> {
    if |rules| == 0 then None
    else if rules[0].Accepts(httpMethod, path) then Some(rules[0])
    else FirstRule(rules[1..], httpMethod, path)
  }

  method Resolve(rules: seq<CryptoRule>, httpMethod: string, path: string) returns (rule: Option<CryptoRule>)
    ensures rule == FirstRule(rules, httpMethod, path)
    ensures rule == None ==> forall j :: 0 <= j < |rules| ==> !rules[j].Accepts(httpMethod, path)
    ensures rule.Some? ==> exists k :: 0 <= k < |rules| && rules[k] == rule.value && rules[k].Accepts(httpMethod, path)
                                       && forall j :: 0 <= j < k ==> !rules[j].Accepts(httpMethod, path)
  {
    assert rules[0..] == rules;
    for i := 0 to |rules|
      invariant FirstRule(rules, httpMethod, path) == FirstRule(rules[i..], httpMethod, path)
      invariant forall j :: 0 <= j < i ==> !rules[j].Accepts(httpMethod, path)
    {
      if rules[i].Accepts(httpMethod, path) {
        return Some(rules[i]);
      }
      assert rules[i..][1..] == rules[i + 1..];
    }
    return None;
  }

  /** Appending rules never changes an answer already given. */
  lemma {:induction false} AppendingKeepsAnswers(rules: seq<CryptoRule>, more: seq<CryptoRule>,
                                              httpMethod: string, path: string)
    ensures FirstRule(rules + more, httpMethod, path)
            == if FirstRule(rules, httpMethod, path).Some? then FirstRule(rules, httpMethod, path)
               else FirstRule(more, httpMethod, path)
  {
    if |rules| == 0 {
      assert rules + more == more;
    } else {
      assert (rules + more)[1..] == rules[1..] + more;
      AppendingKeepsAnswers(rules[1..], more, httpMethod, path);
    }
  }

  /** Upper case is the same text up to case, without a letter in lower case. */
  lemma FoldUpper(s: string)
    ensures ToLower(ToUpper(s)) == ToLower(s)
    ensures forall c :: c in ToUpper(s) ==> !('a' <= c <= 'z')
  {
  }

  lemma {:induction false} FirstRuleAt(rules: seq<CryptoRule>, k: nat, httpMethod: string, path: string)
    requires k < |rules| && rules[k].Accepts(httpMethod, path)
    requires forall j :: 0 <= j < k ==> !rules[j].Accepts(httpMethod, path)
    ensures FirstRule(rules, httpMethod, path) == Some(rules[k])
  {
    if k > 0 {
      FirstRuleAt(rules[1..], k - 1, httpMethod, path);
    }
  }

  lemma {:induction false} NoRule(rules: seq<CryptoRule>, httpMethod: string, path: string)
    requires forall j :: 0 <= j < |rules| ==> !rules[j].Accepts(httpMethod, path)
    ensures FirstRule(rules, httpMethod, path) == None
  {
    if |rules| > 0 {
      NoRule(rules[1..], httpMethod, path);
    }
  }

  ghost predicate Describes(e: Entry, httpMethod: string, path: string) {
    ToLower(httpMethod) == ToLower(e.httpMethod) && PathAgrees(e.path, path)
  }

  /** Resolving against a table of entries gives the first entry that describes the request: same
      method up to case, same segments. If none does, no rule. */
  lemma TableMeaning(entries: seq<Entry>, httpMethod: string, path: string)
    requires forall e :: e in entries ==> WholeSegments(e.path)
    ensures forall k :: 0 <= k < |entries| && Describes(entries[k], httpMethod, path)
                        && (forall j :: 0 <= j < k ==> !Describes(entries[j], httpMethod, path)) ==>
                          IsRuleFor(FirstRule(RulesOf(entries), httpMethod, path), entries[k])
    ensures (forall j :: 0 <= j < |entries| ==> !Describes(entries[j], httpMethod, path)) ==>
              FirstRule(RulesOf(entries), httpMethod, path) == None
  {
    var rules := RulesOf(entries);
    forall j | 0 <= j < |entries|
      ensures rules[j].Accepts(httpMethod, path) <==> Describes(entries[j], httpMethod, path)
    {
      assert entries[j] in entries;
      FoldUpper(entries[j].httpMethod);
      CompilationPreservesMeaning(entries[j].path, path);
    }
    forall k | 0 <= k < |entries| && Describes(entries[k], httpMethod, path)
               && (forall j :: 0 <= j < k ==> !Describes(entries[j], httpMethod, path))
      ensures IsRuleFor(FirstRule(rules, httpMethod, path), entries[k])
    {
      FirstRuleAt(rules, k, httpMethod, path);
    }
    if forall j :: 0 <= j < |entries| ==> !Describes(entries[j], httpMethod, path) {
      NoRule(rules, httpMethod, path);
    }
  }
}
