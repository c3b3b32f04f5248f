/**
 build_promql of src/sre_dashboard/services/metrics.py, and a lexer for PromQL vector selectors that
 recovers what went in.
 */
module PromQl {
  import opened Lexing
  import opened Wrappers
  import PythonText

  // ---- The source ----

  /** str.replace(c, put) for a one-character pattern. */
  function ReplaceAll(s: string, c: char, put: string): string {
    if |s| == 0 then "" else (if s[0] == c then put else [s[0]]) + ReplaceAll(s[1..], c, put)
  }

  /** The three replacements, one after the other. */
  function Escape(s: string): string {
    ReplaceAll(ReplaceAll(ReplaceAll(s, '\\', "\\\\"), '\n', "\\n"), '"', "\\\"")
  }

  const METRIC_TYPES: seq<string> := [
    "cpu_usage_percent", "memory_usage_percent", "active_connections", "db_connection_pool_pct",
    "queue_depth", "cache_hit_rate_pct", "api_latency_ms"
  ]

  function LowerChar(c: char): char {
    if 'A' <= c <= 'Z' then (c as int + 32) as char else c
  }

  function Lower(s: string): string {
    if |s| == 0 then "" else [LowerChar(s[0])] + Lower(s[1..])
  }

  /** validate_metric_type; None for the ValueError. */
  function Normalize(metricType: string): Option<string> {
    var m := Lower(PythonText.Strip(metricType, PythonText.IsSpace));
    if m in METRIC_TYPES then Some(m) else None
  }

  /** METRIC_TEMPLATES: the metric, and the selector with its doubled braces. */
  const SELECTOR_TEMPLATE := "{{tenant_id=\"{tenant_id}" + "\",service_id=\"{service_id}\"}}"

  function Template(metric: string): string { metric + SELECTOR_TEMPLATE }

  /**
   str.format: doubled braces are literal braces, a name in braces is replaced by its argument, and
   what was inserted is not looked at again.
   */
  function Format(t: string, args: map<string, string>): Option<string>
    decreases |t|
  {
    if |t| == 0 then Some("")
    else if t[0] == '{' then
      if |t| > 1 && t[1] == '{' then Prepend("{", Format(t[2..], args))
      else
        var end := PythonText.Find(t, '}');
        if end == |t| || t[1..end] !in args then None
        else Prepend(args[t[1..end]], Format(t[end + 1..], args))
    else if t[0] == '}' then
      if |t| > 1 && t[1] == '}' then Prepend("}", Format(t[2..], args)) else None
    else Prepend([t[0]], Format(t[1..], args))
  }

  function Prepend(s: string, rest: Option<string>): Option<string> {
    if rest.None? then None else Some(s + rest.value)
  }

  function BuildPromQl(metricType: string, tenant: string, service: string): Option<string> {
    var metric := Normalize(metricType);
    if metric.None? then None
    else Format(Template(metric.value), map["tenant_id" := Escape(tenant), "service_id" := Escape(service)])
  }

  // ---- One pass instead of three ----

  function EscapeChar(c: char): string {
    if c == '\\' then "\\\\" else if c == '\n' then "\\n" else if c == '"' then "\\\"" else [c]
  }

  function EscapeOnce(s: string): string {
    if |s| == 0 then "" else EscapeChar(s[0]) + EscapeOnce(s[1..])
  }

  lemma {:induction false} ReplaceDistributes(a: string, b: string, c: char, put: string)
    ensures ReplaceAll(a + b, c, put) == ReplaceAll(a, c, put) + ReplaceAll(b, c, put)
  {
    if |a| == 0 {
      assert a + b == b;
    } else {
      assert (a + b)[1..] == a[1..] + b;
      ReplaceDistributes(a[1..], b, c, put);
    }
  }

  lemma ReplaceOne(x: char, c: char, put: string)
    ensures ReplaceAll([x], c, put) == if x == c then put else [x]
  {
    assert ReplaceAll([x], c, put) == (if x == c then put else [x]) + ReplaceAll([x][1..], c, put);
  }

  lemma EscapeOfOne(x: char)
    ensures Escape([x]) == EscapeChar(x)
  {
    ReplaceOne(x, '\\', "\\\\");
    if x == '\\' {
      assert "\\\\" == ['\\'] + ['\\'];
      ReplaceDistributes(['\\'], ['\\'], '\n', "\\n");
      ReplaceOne('\\', '\n', "\\n");
      ReplaceDistributes(['\\'], ['\\'], '"', "\\\"");
      ReplaceOne('\\', '"', "\\\"");
    } else {
      ReplaceOne(x, '\n', "\\n");
      if x == '\n' {
        assert "\\n" == ['\\'] + ['n'];
        ReplaceDistributes(['\\'], ['n'], '"', "\\\"");
        ReplaceOne('\\', '"', "\\\"");
        ReplaceOne('n', '"', "\\\"");
      } else {
        ReplaceOne(x, '"', "\\\"");
      }
    }
  }

  /** The three sequential replacements are one simultaneous escape of every character. */
  lemma {:induction false} SequentialIsSimultaneous(s: string)
    ensures Escape(s) == EscapeOnce(s)
  {
    if |s| == 0 {
    } else {
      var x, rest := [s[0]], s[1..];
      assert s == x + rest;
      ReplaceDistributes(x, rest, '\\', "\\\\");
      var x1, r1 := ReplaceAll(x, '\\', "\\\\"), ReplaceAll(rest, '\\', "\\\\");
      ReplaceDistributes(x1, r1, '\n', "\\n");
      ReplaceDistributes(ReplaceAll(x1, '\n', "\\n"), ReplaceAll(r1, '\n', "\\n"), '"', "\\\"");
      EscapeOfOne(s[0]);
      SequentialIsSimultaneous(rest);
    }
  }

  // ---- The lexer ----

  predicate IsNameChar(c: char) {
    'a' <= c <= 'z' || 'A' <= c <= 'Z' || '0' <= c <= '9' || c == '_' || c == ':'
  }

  /** The length of the leading name. */
  function NameLength(s: string): (n: nat)
    ensures n <= |s|
  {
    if |s| > 0 && IsNameChar(s[0]) then 1 + NameLength(s[1..]) else 0
  }

  /** The character behind a backslash in a double-quoted PromQL string; numeric escapes are not modelled. */
  function Unescape(c: char): Option<char> {
    if c == 'n' then Some('\n') else if c == '\\' then Some('\\') else if c == '"' then Some('"')
    else if c == 't' then Some('\t') else if c == 'r' then Some('\r')
    else if c == 'a' then Some(7 as char) else if c == 'b' then Some(8 as char)
    else if c == 'v' then Some(11 as char) else if c == 'f' then Some(12 as char)
    else None
  }

  /** The string that ends at the first unescaped quote; a raw newline or the end of the text is an error. */
  function LexString(s: string): (r: Option<Token>)
    ensures r.Some? ==> |r.value.rest| < |s|
  {
    if |s| == 0 || s[0] == '\n' then None
    else if s[0] == '"' then Some(Token("", s[1..]))
    else if s[0] == '\\' then
      if |s| == 1 || Unescape(s[1]).None? then None
      else
        PrependToken(Unescape(s[1]).value, LexString(s[2..]))
    else PrependToken(s[0], LexString(s[1..]))
  }

  type Matcher = (string, string)

  /** Equality matchers up to the closing brace, which must end the text. */
  function LexMatchers(s: string): Option<seq<Matcher>>
    decreases |s|
  {
    var n := NameLength(s);
    if n == 0 || |s| < n + 2 || s[n] != '=' || s[n + 1] != '"' then None
    else
      var value := LexString(s[n + 2..]);
      if value.None? || |value.value.rest| == 0 then None
      else
        var rest := value.value.rest;
        if rest == "}" then Some([(s[..n], value.value.text)])
        else if rest[0] == ',' then
          match LexMatchers(rest[1..])
          case None => None
          case Some(more) => Some([(s[..n], value.value.text)] + more)
        else None
  }

  datatype Selector = Selector(metric: string, matchers: seq<Matcher>)

  function LexSelector(s: string): Option<Selector> {
    var n := NameLength(s);
    if n == 0 || n == |s| || s[n] != '{' then None
    else
      match LexMatchers(s[n + 1..])
      case None => None
      case Some(m) => Some(Selector(s[..n], m))
  }

  // ---- The round trip ----

  /** The lexer reads one escaped character as that character. */
  lemma LexOneChar(c: char, tail: string)
    ensures LexString(EscapeChar(c) + tail) == PrependToken(c, LexString(tail))
  {
    var s := EscapeChar(c) + tail;
    if |EscapeChar(c)| == 2 {
      assert s[0] == '\\' && s[1] == EscapeChar(c)[1];
      assert s[2..] == tail;
    } else {
      assert s[0] == c && s[1..] == tail;
    }
  }

  /** Reading an escaped value back gives the value, and stops at the quote behind it. */
  lemma {:induction false} LexEscaped(v: string, rest: string)
    ensures LexString(EscapeOnce(v) + "\"" + rest) == Some(Token(v, rest))
  {
    if |v| == 0 {
      assert EscapeOnce(v) + "\"" + rest == "\"" + rest;
      assert ("\"" + rest)[1..] == rest;
    } else {
      var tail := EscapeOnce(v[1..]) + "\"" + rest;
      assert EscapeOnce(v) + "\"" + rest == EscapeChar(v[0]) + tail;
      assert v == [v[0]] + v[1..];
      LexEscaped(v[1..], rest);
      LexOneChar(v[0], tail);
    }
  }

  /** Escaping loses nothing. */
  lemma EscapeIsInjective(a: string, b: string)
    requires Escape(a) == Escape(b)
    ensures a == b
  {
    SequentialIsSimultaneous(a);
    SequentialIsSimultaneous(b);
    LexEscaped(a, "");
    LexEscaped(b, "");
  }

  lemma {:induction false} NameEnds(name: string, rest: string)
    requires forall c :: c in name ==> IsNameChar(c)
    requires |rest| > 0 && !IsNameChar(rest[0])
    ensures NameLength(name + rest) == |name|
  {
    if |name| == 0 {
      assert name + rest == rest;
    } else {
      assert (name + rest)[1..] == name[1..] + rest;
      NameEnds(name[1..], rest);
    }
  }

  /** One matcher at the front of a text. */
  function MatcherText(name: string, value: string): string {
    name + "=\"" + EscapeOnce(value) + "\""
  }

  lemma AppendToRight(a: string, b: string, c: string)
    ensures (a + b) + c == a + (b + c)
  {
  }

  lemma MatcherParts(name: string, escaped: string, rest: string)
    ensures var tail := escaped + "\"" + rest;
            var s := name + "=\"" + escaped + "\"" + rest;
            && s == name + ("=\"" + tail)
            && |s| >= |name| + 2 && s[..|name|] == name && s[|name|] == '=' && s[|name| + 1] == '"'
            && s[|name| + 2..] == tail
  {
    var tail := escaped + "\"" + rest;
    var s := name + "=\"" + escaped + "\"" + rest;
    AppendToRight(name + "=\"" + escaped, "\"", rest);
    AppendToRight(name + "=\"", escaped, "\"" + rest);
    AppendToRight(name, "=\"", escaped + ("\"" + rest));
    AppendToRight(escaped, "\"", rest);
    assert s == name + ("=\"" + tail);
    var t := "=\"" + tail;
    assert t[0] == '=' && t[1] == '"' && t[2..] == tail;
    TailOfAppended(name, t);
  }

  lemma TailOfAppended(a: string, b: string)
    requires |b| >= 2
    ensures (a + b)[..|a|] == a && (a + b)[|a|] == b[0] && (a + b)[|a| + 1] == b[1] && (a + b)[|a| + 2..] == b[2..]
  {
  }

  lemma LexMatcher(name: string, value: string, rest: string)
    requires |name| > 0 && forall c :: c in name ==> IsNameChar(c)
    ensures var s := MatcherText(name, value) + rest;
            && NameLength(s) == |name| && s[..|name|] == name
            && |s| >= |name| + 2 && s[|name|] == '=' && s[|name| + 1] == '"'
            && LexString(s[|name| + 2..]) == Some(Token(value, rest))
  {
    hide NameLength, LexString, EscapeOnce, IsNameChar;
    MatcherParts(name, EscapeOnce(value), rest);
    var tail := EscapeOnce(value) + "\"" + rest;
    EqualsSignEndsName(tail);
    NameEnds(name, "=\"" + tail);
    LexEscaped(value, rest);
  }

  lemma EqualsSignEndsName(tail: string)
    ensures ("=\"" + tail)[0] == '=' && !IsNameChar('=')
  {
  }

  function SelectorText(metric: string, tenant: string, service: string): string {
    metric + "{" + MatcherText("tenant_id", tenant) + "," + MatcherText("service_id", service) + "}"
  }

  /** The last matcher of a selector. */
  lemma LexLastMatcher(name: string, value: string)
    requires |name| > 0 && forall c :: c in name ==> IsNameChar(c)
    ensures LexMatchers(MatcherText(name, value) + "}") == Some([(name, value)])
  {
    LexMatcher(name, value, "}");
    hide MatcherText, LexString, NameLength;
  }

  /** A matcher with others behind it. */
  lemma LexFirstMatcher(name: string, value: string, more: string)
    requires |name| > 0 && forall c :: c in name ==> IsNameChar(c)
    requires LexMatchers(more).Some?
    ensures LexMatchers(MatcherText(name, value) + ("," + more)) == Some([(name, value)] + LexMatchers(more).value)
  {
    LexMatcher(name, value, "," + more);
    assert ("," + more)[0] == ',' && ("," + more)[1..] == more;
    hide MatcherText, LexString, NameLength, IsNameChar;
    CommaGoesOn(MatcherText(name, value) + ("," + more), name, value, "," + more);
  }

  /** LexMatchers at a matcher that a comma follows. */
  lemma CommaGoesOn(s: string, name: string, value: string, rest: string)
    requires |name| > 0 && NameLength(s) == |name| && s[..|name|] == name
    requires |s| >= |name| + 2 && s[|name|] == '=' && s[|name| + 1] == '"'
    requires LexString(s[|name| + 2..]) == Some(Token(value, rest))
    requires |rest| > 0 && rest[0] == ',' && LexMatchers(rest[1..]).Some?
    ensures LexMatchers(s) == Some([(name, value)] + LexMatchers(rest[1..]).value)
  {
    hide NameLength, LexString;
    assert rest != "}";
  }

  lemma LabelNames()
    ensures forall c :: c in "tenant_id" ==> IsNameChar(c)
    ensures forall c :: c in "service_id" ==> IsNameChar(c)
  {
  }

  lemma LexSelectorParts(metric: string, body: string)
    requires |metric| > 0 && forall c :: c in metric ==> IsNameChar(c)
    requires LexMatchers(body).Some?
    ensures LexSelector(metric + ("{" + body)) == Some(Selector(metric, LexMatchers(body).value))
  {
    hide LexMatchers, NameLength, IsNameChar;
    var rest := "{" + body;
    assert rest[0] == '{' && rest[1..] == body;
    BraceIsNoNameChar();
    NameEnds(metric, rest);
    HeadOfAppended(metric, rest);
  }

  lemma BraceIsNoNameChar()
    ensures !IsNameChar('{')
  {
  }

  lemma HeadOfAppended(a: string, b: string)
    requires |b| >= 1
    ensures (a + b)[..|a|] == a && (a + b)[|a|] == b[0] && (a + b)[|a| + 1..] == b[1..]
  {
  }

  lemma LexSelectorText(metric: string, tenant: string, service: string)
    requires |metric| > 0 && forall c :: c in metric ==> IsNameChar(c)
    ensures LexSelector(SelectorText(metric, tenant, service))
         == Some(Selector(metric, [("tenant_id", tenant), ("service_id", service)]))
  {
    hide MatcherText, LexMatchers, IsNameChar, NameLength, LexSelector;
    LabelNames();
    var m1, m2 := MatcherText("tenant_id", tenant), MatcherText("service_id", service);
    LexLastMatcher("service_id", service);
    LexFirstMatcher("tenant_id", tenant, m2 + "}");
    LexSelectorParts(metric, m1 + ("," + (m2 + "}")));
    AppendToRight(metric + "{" + m1 + ",", m2, "}");
    AppendToRight(metric + "{" + m1, ",", m2 + "}");
    AppendToRight(metric + "{", m1, "," + (m2 + "}"));
    AppendToRight(metric, "{", m1 + ("," + (m2 + "}")));
    assert [("tenant_id", tenant)] + [("service_id", service)] == [("tenant_id", tenant), ("service_id", service)];
  }

  // ---- The template ----

  lemma PrependTwice(a: string, b: string, rest: Option<string>)
    ensures Prepend(a, Prepend(b, rest)) == Prepend(a + b, rest)
  {
    if rest.Some? {
      assert a + (b + rest.value) == (a + b) + rest.value;
    }
  }

  lemma PrependNothing(rest: Option<string>)
    ensures Prepend("", rest) == rest
  {
    if rest.Some? {
      assert "" + rest.value == rest.value;
    }
  }

  lemma {:induction false} FormatPlain(plain: string, rest: string, args: map<string, string>)
    requires '{' !in plain && '}' !in plain
    ensures Format(plain + rest, args) == Prepend(plain, Format(rest, args))
  {
    if |plain| == 0 {
      assert plain + rest == rest;
      PrependNothing(Format(rest, args));
    } else {
      assert (plain + rest)[1..] == plain[1..] + rest;
      FormatPlain(plain[1..], rest, args);
      PrependTwice([plain[0]], plain[1..], Format(rest, args));
      assert plain == [plain[0]] + plain[1..];
    }
  }

  lemma FormatField(name: string, rest: string, args: map<string, string>)
    requires |name| > 0 && '}' !in name && name[0] != '{' && name in args
    ensures Format("{" + name + "}" + rest, args) == Prepend(args[name], Format(rest, args))
  {
    var t := "{" + name + "}" + rest;
    assert t[1] == name[0];
    assert t[|name| + 1] == '}';
    assert forall j :: 1 <= j <= |name| ==> t[j] == name[j - 1];
    assert PythonText.Find(t, '}') == |name| + 1;
    assert t[1..|name| + 1] == name;
    assert t[|name| + 2..] == rest;
  }

  lemma FormatEnd(args: map<string, string>)
    ensures Format("}}", args) == Some("}")
  {
    assert "}}"[2..] == "";
    assert "}" + "" == "}";
  }

  lemma FormatStart(rest: string, args: map<string, string>)
    ensures Format("{{" + rest, args) == Prepend("{", Format(rest, args))
  {
    assert ("{{" + rest)[2..] == rest;
  }

  /** What stands behind each piece of the template. */
  const AFTER_SERVICE := "\"" + "}}"
  const AFTER_COMMA := "\",service_id=\"" + ("{" + "service_id" + "}" + AFTER_SERVICE)
  const AFTER_BRACE := "tenant_id=\"" + ("{" + "tenant_id" + "}" + AFTER_COMMA)

  lemma TemplatePieces()
    ensures SELECTOR_TEMPLATE == "{{" + AFTER_BRACE
  {
    assert AFTER_SERVICE == "\"}}";
    assert AFTER_COMMA == "\",service_id=\"{service_id}\"}}";
    assert "{{tenant_id=\"{tenant_id}" == "{{" + ("tenant_id=\"" + ("{" + "tenant_id" + "}"));
    hide AFTER_COMMA;
    AppendToRight("tenant_id=\"", "{" + "tenant_id" + "}", AFTER_COMMA);
    AppendToRight("{{", "tenant_id=\"" + ("{" + "tenant_id" + "}"), AFTER_COMMA);
  }

  lemma PrependSeven(a: string, b: string, c: string, d: string, e: string, f: string, g: string)
    ensures Prepend(a, Prepend(b, Prepend(c, Prepend(d, Prepend(e, Prepend(f, Some(g)))))))
         == Some(a + b + c + d + e + f + g)
  {
    PrependTwice(a, b, Prepend(c, Prepend(d, Prepend(e, Prepend(f, Some(g))))));
    PrependTwice(a + b, c, Prepend(d, Prepend(e, Prepend(f, Some(g)))));
    PrependTwice(a + b + c, d, Prepend(e, Prepend(f, Some(g))));
    PrependTwice(a + b + c + d, e, Prepend(f, Some(g)));
    PrependTwice(a + b + c + d + e, f, Some(g));
  }

  lemma FormatTail(args: map<string, string>)
    requires "tenant_id" in args && "service_id" in args
    ensures Format(AFTER_COMMA, args)
         == Prepend("\",service_id=\"", Prepend(args["service_id"], Prepend("\"", Some("}"))))
  {
    hide Format, Prepend;
    FormatEnd(args);
    FormatPlain("\"", "}}", args);
    FormatField("service_id", AFTER_SERVICE, args);
    FormatPlain("\",service_id=\"", "{" + "service_id" + "}" + AFTER_SERVICE, args);
  }

  lemma FormatSelector(args: map<string, string>)
    requires "tenant_id" in args && "service_id" in args
    ensures Format(SELECTOR_TEMPLATE, args)
         == Some("{" + "tenant_id=\"" + args["tenant_id"] + "\",service_id=\"" + args["service_id"] + "\"" + "}")
  {
    hide Format, Prepend, AFTER_COMMA;
    FormatTail(args);
    FormatField("tenant_id", AFTER_COMMA, args);
    FormatPlain("tenant_id=\"", "{" + "tenant_id" + "}" + AFTER_COMMA, args);
    FormatStart(AFTER_BRACE, args);
    TemplatePieces();
    PrependSeven("{", "tenant_id=\"", args["tenant_id"], "\",service_id=\"", args["service_id"], "\"", "}");
  }

  lemma MetricTypesAreNames(metric: string)
    requires metric in METRIC_TYPES
    ensures |metric| > 0 && forall c :: c in metric ==> IsNameChar(c)
    ensures '{' !in metric && '}' !in metric
  {
  }

  lemma BuildIsSelectorText(metricType: string, tenant: string, service: string)
    requires Normalize(metricType).Some?
    ensures BuildPromQl(metricType, tenant, service)
         == Some(SelectorText(Normalize(metricType).value, tenant, service))
  {
    hide Normalize, Format, Escape, EscapeOnce, METRIC_TYPES, SELECTOR_TEMPLATE;
    var metric := Normalize(metricType).value;
    NormalizedIsMetric(metricType);
    var args := map["tenant_id" := Escape(tenant), "service_id" := Escape(service)];
    assert "tenant_id"[0] == 't' && "service_id"[0] == 's';
    MetricTypesAreNames(metric);
    FormatPlain(metric, SELECTOR_TEMPLATE, args);
    FormatSelector(args);
    SequentialIsSimultaneous(tenant);
    SequentialIsSimultaneous(service);
    SelectorPieces(metric, tenant, service);
  }

  lemma NormalizedIsMetric(metricType: string)
    ensures Normalize(metricType).Some? ==> Normalize(metricType).value in METRIC_TYPES
  {
  }

  lemma SelectorPieces(metric: string, tenant: string, service: string)
    ensures metric + ("{" + "tenant_id=\"" + EscapeOnce(tenant) + "\",service_id=\"" + EscapeOnce(service) + "\"" + "}") == SelectorText(metric, tenant, service)
  {
    hide EscapeOnce;
    assert "tenant_id=\"" == "tenant_id" + "=\"";
    assert "\",service_id=\"" == "\"" + "," + ("service_id" + "=\"");
    Regroup(metric, "{", "tenant_id", "=\"", EscapeOnce(tenant), "\"", ",", "service_id", EscapeOnce(service), "}");
  }

  lemma Regroup(metric: string, open: string, n1: string, eq: string, e: string, quote: string, comma: string,
                n2: string, f: string, close: string)
    ensures metric + (open + (n1 + eq) + e + (quote + comma + (n2 + eq)) + f + quote + close)
         == metric + open + (n1 + eq + e + quote) + comma + (n2 + eq + f + quote) + close
  {
    var left := open + (n1 + eq) + e + (quote + comma + (n2 + eq)) + f + quote + close;
    assert left == open + (n1 + eq + e + quote) + comma + (n2 + eq + f + quote) + close;
  }

  // ---- What is asked for ----

  /** The word up to the case of its letters. */
  predicate SameButCase(v: string, m: string) {
    && |v| == |m|
    && forall i :: 0 <= i < |m| ==> v[i] == m[i] || ('a' <= m[i] <= 'z' && v[i] as int == m[i] as int - 32)
  }

  /** The name in any case, with any white space around it. */
  ghost predicate AsksFor(text: string, m: string) {
    exists pre, v, post ::
      && text == pre + v + post && SameButCase(v, m)
      && PythonText.All(pre, PythonText.IsSpace) && PythonText.All(post, PythonText.IsSpace)
  }

  lemma {:induction false} LowerMeaning(v: string, m: string)
    requires forall c :: c in m ==> IsNameChar(c) && !('A' <= c <= 'Z')
    ensures Lower(v) == m <==> SameButCase(v, m)
  {
    if |v| == 0 {
    } else if |m| == 0 {
      assert |Lower(v)| > 0;
    } else {
      LowerMeaning(v[1..], m[1..]);
      assert m == [m[0]] + m[1..];
      assert m[0] in m;
      assert Lower(v) == [LowerChar(v[0])] + Lower(v[1..]);
      assert Lower(v)[1..] == Lower(v[1..]);
      assert SameButCase(v, m) ==> forall i :: 0 <= i < |m| - 1 ==> v[1..][i] == v[i + 1] && m[1..][i] == m[i + 1];
      if SameButCase(v[1..], m[1..]) {
        forall i | 0 < i < |m|
          ensures v[i] == m[i] || ('a' <= m[i] <= 'z' && v[i] as int == m[i] as int - 32)
        {
          assert v[1..][i - 1] == v[i] && m[1..][i - 1] == m[i];
        }
      }
    }
  }

  lemma MetricTypesAreLower(m: string)
    requires m in METRIC_TYPES
    ensures |m| > 0 && forall c :: c in m ==> IsNameChar(c) && !('A' <= c <= 'Z')
  {
  }

  lemma NameIsTrimmed(v: string, m: string)
    requires SameButCase(v, m) && |m| > 0 && forall c :: c in m ==> IsNameChar(c) && !('A' <= c <= 'Z')
    ensures PythonText.IsTrimmed(v, PythonText.IsSpace)
  {
    assert m[0] in m && m[|m| - 1] in m;
  }

  /** A text is normalized to a supported metric exactly when it asks for it. */
  lemma NormalizeMeaning(text: string, m: string)
    requires m in METRIC_TYPES
    ensures Normalize(text) == Some(m) <==> AsksFor(text, m)
  {
    hide METRIC_TYPES, Lower, PythonText.Strip, PythonText.IsSpace, PythonText.All, PythonText.IsTrimmed, SameButCase;
    MetricTypesAreLower(m);
    var pre, post := PythonText.StripParts(text, PythonText.IsSpace);
    LowerMeaning(PythonText.Strip(text, PythonText.IsSpace), m);
    if AsksFor(text, m) {
      var a, v, b :| && text == a + v + b && SameButCase(v, m)
                     && PythonText.All(a, PythonText.IsSpace) && PythonText.All(b, PythonText.IsSpace);
      NameIsTrimmed(v, m);
      PythonText.StripBetween(a, v, b, PythonText.IsSpace);
    }
  }

  /**
   For every tenant and service text and every supported metric, in any case and with any white space
   around it, the query is a selector with exactly that metric, tenant and service; for any other text
   nothing is built.
   */
  lemma QueryMeansWhatWasAsked(text: string, tenant: string, service: string)
    ensures forall m :: m in METRIC_TYPES && AsksFor(text, m) ==>
              && BuildPromQl(text, tenant, service).Some?
              && LexSelector(BuildPromQl(text, tenant, service).value)
              == Some(Selector(m, [("tenant_id", tenant), ("service_id", service)]))
    ensures BuildPromQl(text, tenant, service).Some? ==> exists m :: m in METRIC_TYPES && AsksFor(text, m)
  {
    hide Normalize, LexSelector, SelectorText, Format, METRIC_TYPES, AsksFor, BuildPromQl;
    forall m | m in METRIC_TYPES && AsksFor(text, m)
      ensures && BuildPromQl(text, tenant, service).Some?
              && LexSelector(BuildPromQl(text, tenant, service).value)
              == Some(Selector(m, [("tenant_id", tenant), ("service_id", service)]))
    {
      NormalizeMeaning(text, m);
      BuildIsSelectorText(text, tenant, service);
      MetricTypesAreNames(m);
      LexSelectorText(m, tenant, service);
    }
    if BuildPromQl(text, tenant, service).Some? {
      BuiltIsNormalized(text, tenant, service);
      NormalizedIsMetric(text);
      NormalizeMeaning(text, Normalize(text).value);
    }
  }

  lemma BuiltIsNormalized(text: string, tenant: string, service: string)
    ensures BuildPromQl(text, tenant, service).Some? ==> Normalize(text).Some?
  {
  }

  /** A metric's own name asks for it. */
  lemma NameAsksForItself(m: string)
    ensures AsksFor(m, m)
  {
    assert m == "" + m + "";
  }
}
