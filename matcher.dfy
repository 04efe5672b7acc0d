/** The usage matcher of hidapi/hidusage/matcher.go: a list of textual patterns ("*",
    "page", "page.*", "page.usage") compiled into a predicate over (page, ID) pairs. */
module Matchers {
  import opened Common

  /** The name tables the matcher consults: ParsePage resolves a page name, Parse resolves
      a whole "page.usage" name. Both read the generated usage-page tables, which are not
      part of this model, so they are given as maps. */
  datatype Names = Names(pages: map<string, uint16>, usages: map<string, (uint16, uint16)>)

  /** What one compiled pattern accepts. */
  datatype Pattern = AnyUsage | OnPage(page: uint16) | Exact(page: uint16, id: uint16)

  /** The compiled matcher: no patterns at all accepts everything, otherwise the OR of
      the patterns. */
  datatype Matcher = MatchAll | AnyOf(patterns: seq<Pattern>)

  predicate PatternMatches(p: Pattern, page: uint16, id: uint16)
  {
    match p
    case AnyUsage => true
    case OnPage(q) => q == page
    case Exact(q, i) => q == page && i == id
  }

  predicate Matches(m: Matcher, page: uint16, id: uint16)
  {
    match m
    case MatchAll => true
    case AnyOf(ps) => exists k :: 0 <= k < |ps| && PatternMatches(ps[k], page, id)
  }

  /** The pattern split on '.', with a lone part read as "part.*". */
  function PatternParts(pattern: string): (parts: seq<string>)
    ensures |parts| >= 2
  {
    var parts := Split(pattern, '.');
    if |parts| == 1 then [parts[0], "*"] else parts
  }

  /** newMatcher: a "*" page accepts everything, a "*" ID accepts the whole page, and
      anything else must name one usage. */
  function NewPattern(names: Names, pattern: string): (r: Result<Pattern>)
    ensures r.Panic? == false
  {
    var parts := PatternParts(pattern);
    if parts[0] == "*" then Ok(AnyUsage)
    else if parts[1] == "*" then
      if parts[0] in names.pages then Ok(OnPage(names.pages[parts[0]]))
      else Err("unknown usage page")
    else if pattern in names.usages then Ok(Exact(names.usages[pattern].0, names.usages[pattern].1))
    else Err("unknown usage")
  }

  /** m is what NewMatcher builds from the patterns: MatchAll for none, otherwise each
      pattern's compiled form at its own position. */
  predicate CompiledFrom(names: Names, patterns: seq<string>, m: Matcher)
  {
    if patterns == [] then m == MatchAll
    else m.AnyOf? && |m.patterns| == |patterns| &&
         forall k :: 0 <= k < |patterns| ==> NewPattern(names, patterns[k]) == Ok(m.patterns[k])
  }

  /** NewMatcher: no patterns accept everything; otherwise each pattern is compiled in
      turn, and the first one that fails decides the error. */
  method NewMatcher(names: Names, patterns: seq<string>) returns (r: Result<Matcher>)
    ensures r.Ok? <==> forall k :: 0 <= k < |patterns| ==> NewPattern(names, patterns[k]).Ok?
    ensures r.Ok? ==> CompiledFrom(names, patterns, r.value)
    ensures !r.Ok? ==>
              exists k :: 0 <= k < |patterns| && !NewPattern(names, patterns[k]).Ok? &&
                r == Err(NewPattern(names, patterns[k]).msg) &&
                forall j :: 0 <= j < k ==> NewPattern(names, patterns[j]).Ok?
  {
    if patterns == [] {
      return Ok(MatchAll);
    }
    var funcs: seq<Pattern> := [];
    var i := 0;
    while i < |patterns|
      invariant 0 <= i <= |patterns| && |funcs| == i
      invariant forall k :: 0 <= k < i ==> NewPattern(names, patterns[k]) == Ok(funcs[k])
    {
      var matcher := NewPattern(names, patterns[i]);
      if !matcher.Ok? {
        return Err(matcher.msg);
      }
      funcs := funcs + [matcher.value];
      i := i + 1;
    }
    return Ok(AnyOf(funcs));
  }

  /** The returned closure: the patterns are tried in order and the first hit decides. */
  method Match(m: Matcher, page: uint16, id: uint16) returns (hit: bool)
    ensures hit == Matches(m, page, id)
  {
    if m.MatchAll? {
      return true;
    }
    var i := 0;
    while i < |m.patterns|
      invariant 0 <= i <= |m.patterns|
      invariant forall k :: 0 <= k < i ==> !PatternMatches(m.patterns[k], page, id)
    {
      if PatternMatches(m.patterns[i], page, id) {
        return true;
      }
      i := i + 1;
    }
    return false;
  }

  /** A compiled matcher accepts (page, id) exactly when no patterns were given or some
      given pattern accepts it. */
  lemma MatcherIsDisjunction(names: Names, patterns: seq<string>, m: Matcher, page: uint16, id: uint16)
    requires CompiledFrom(names, patterns, m)
    ensures Matches(m, page, id) <==>
              patterns == [] ||
              exists k :: 0 <= k < |patterns| && NewPattern(names, patterns[k]).Ok? &&
                PatternMatches(NewPattern(names, patterns[k]).value, page, id)
  {
    if patterns != [] && Matches(m, page, id) {
      var k :| 0 <= k < |m.patterns| && PatternMatches(m.patterns[k], page, id);
      assert NewPattern(names, patterns[k]).Ok?;
    }
  }

  /** A "*" page, alone or followed by anything, accepts every usage. */
  lemma StarMatchesAll(names: Names, rest: string)
    ensures NewPattern(names, "*") == Ok(AnyUsage)
    ensures NewPattern(names, "*." + rest) == Ok(AnyUsage)
  {
    SplitSingle("*", '.');
    SplitAt("*", '.', rest);
    assert "*." + rest == "*" + ['.'] + rest;
  }

  /** A page name, bare or as "page.*", accepts exactly the usages on that page, and an
      unknown page name is an error. */
  lemma PageMatchesWholePage(names: Names, name: string, page: uint16, id: uint16)
    requires '.' !in name && name != "*"
    ensures NewPattern(names, name) == NewPattern(names, name + ".*")
    ensures name !in names.pages ==> NewPattern(names, name).Err?
    ensures name in names.pages ==>
              NewPattern(names, name).Ok? &&
              (PatternMatches(NewPattern(names, name).value, page, id) <==> page == names.pages[name])
  {
    SplitSingle(name, '.');
    SplitSingle("*", '.');
    SplitAt(name, '.', "*");
    assert name + ".*" == name + ['.'] + "*";
  }

  /** "page.usage" with two plain parts accepts exactly the one usage it names, and an
      unknown name is an error. */
  lemma ExactMatchesOne(names: Names, pageName: string, usageName: string, page: uint16, id: uint16)
    requires '.' !in pageName && '.' !in usageName && pageName != "*" && usageName != "*"
    ensures pageName + "." + usageName !in names.usages ==> NewPattern(names, pageName + "." + usageName).Err?
    ensures pageName + "." + usageName in names.usages ==>
              NewPattern(names, pageName + "." + usageName).Ok? &&
              (PatternMatches(NewPattern(names, pageName + "." + usageName).value, page, id) <==>
                 (page, id) == names.usages[pageName + "." + usageName])
  {
    SplitSingle(usageName, '.');
    SplitAt(pageName, '.', usageName);
    assert pageName + "." + usageName == pageName + ['.'] + usageName;
  }
}
