/**
 * Group selection and the verdict of src/apps/feeds/robots.py, sections 2.2.1 and 2.2.2 of RFC 9309.
 *
 * The parser is one pass over the lines with three flags and a shared rule budget.  The reference is
 * in two phases: cut the lines into groups, then combine the groups that apply.
 */
module RobotsPolicy {
  import opened Prelude
  import opened RobotsMatch

  const MAX_RULES := 2_000
  const MAX_PATTERN_CHARS := 2_048

  // ---------------------------------------------------------------------------------------------
  // Lines
  // ---------------------------------------------------------------------------------------------

  datatype Directive = Directive(allow: bool, value: string)

  datatype Line = UserAgent(token: string) | RuleLine(d: Directive) | Unrelated

  predicate Space(c: char) { c == ' ' || c == '\t' || c == '\r' || c == '\n' }

  function LStrip(s: string): string {
    if s != [] && Space(s[0]) then LStrip(s[1..]) else s
  }

  function RStrip(s: string): string {
    if s != [] && Space(s[|s| - 1]) then RStrip(s[..|s| - 1]) else s
  }

  function Strip(s: string): string { RStrip(LStrip(s)) }

  predicate TokenChar(c: char) { 'A' <= c <= 'Z' || 'a' <= c <= 'z' || c == '_' || c == '-' }

  function TokenPrefix(s: string): string {
    if s != [] && TokenChar(s[0]) then [s[0]] + TokenPrefix(s[1..]) else []
  }

  function AgentToken(value: string): string {
    if Strip(value) == "*" then "*" else Lower(TokenPrefix(Strip(value)))
  }

  function Field(key: string, value: string): Line {
    if key == "user-agent" then UserAgent(AgentToken(value))
    else if key == "allow" then RuleLine(Directive(true, value))
    else if key == "disallow" then RuleLine(Directive(false, value))
    else Unrelated
  }

  function Lex(raw: string): Line {
    var line := Strip(Before(raw, '#'));
    if ':' !in line then Unrelated
    else
      var name := Before(line, ':');
      Field(Lower(Strip(name)), if |name| < |line| then Strip(line[|name| + 1..]) else "")
  }

  /** A comment never changes what a line says. */
  lemma CommentIsIgnored(text: string, comment: string)
    requires '#' !in text
    ensures Lex(text + ['#'] + comment) == Lex(text)
  {
    BeforeFirst(text, '#', comment);
    BeforeNone(text, '#');
  }

  // A line written out in the usual form is read back as it was meant.

  predicate Stripped(s: string) { s == [] || (!Space(s[0]) && !Space(s[|s| - 1])) }

  predicate Blank(s: string) {
    forall i | 0 <= i < |s| :: s[i] == ' ' || s[i] == '\t' || s[i] == '\r' || s[i] == '\n'
  }

  lemma {:induction false} LStripBlank(blank: string, s: string)
    requires Blank(blank) && Stripped(s)
    ensures LStrip(blank + s) == s
  {
    if blank == [] {
      assert blank + s == s;
    } else {
      assert Space(blank[0]) && (blank + s)[1..] == blank[1..] + s;
      LStripBlank(blank[1..], s);
    }
  }

  lemma {:induction false} RStripBlank(s: string, blank: string)
    requires Blank(blank) && Stripped(s)
    ensures RStrip(s + blank) == s
    decreases |blank|
  {
    if blank == [] {
      assert s + blank == s;
    } else {
      var n := |blank| - 1;
      assert Space(blank[n]) && (s + blank)[..|s + blank| - 1] == s + blank[..n];
      RStripBlank(s, blank[..n]);
    }
  }

  lemma StripBlanks(before: string, s: string, after: string)
    requires Blank(before) && Stripped(s) && Blank(after)
    ensures Strip(before + s) == s && (s != [] ==> Strip(s + after) == s)
  {
    LStripBlank(before, s);
    RStripBlank(s, []);
    assert s + [] == s;
    RStripBlank(s, after);
  }

  /** A stripped line with a colon is cut there. */
  lemma {:induction false} ReadPlain(name: string, rest: string)
    requires name != [] && Stripped(name) && ':' !in name && Stripped(name + [':'] + rest) &&
        '#' !in name + [':'] + rest
    ensures Lex(name + [':'] + rest) == Field(Lower(name), Strip(rest))
  {
    var line := name + [':'] + rest;
    BeforeNone(line, '#');
    AlreadyStripped(line);
    BeforeFirst(name, ':', rest);
    assert line[|name| + 1..] == rest && line[|name|] == ':';
    AlreadyStripped(name);
  }

  lemma AlreadyStripped(s: string)
    requires Stripped(s)
    ensures Strip(s) == s
  {
  }

  lemma ReadField(name: string, blank: string, value: string)
    requires name != [] && Stripped(name) && '#' !in name && ':' !in name
    requires Blank(blank) && Stripped(value) && '#' !in value
    ensures Lex(name + [':'] + (blank + value)) == Field(Lower(name), value)
  {
    if value == [] {
      ReadEmpty(name, blank);
      assert blank + value == blank;
    } else {
      var raw := name + [':'] + (blank + value);
      assert raw[0] == name[0] && raw[|raw| - 1] == value[|value| - 1];
      StripBlanks(blank, value, []);
      ReadPlain(name, blank + value);
    }
  }

  lemma {:induction false} BlankTail(line: string, blank: string)
    requires line != [] && Stripped(line) && '#' !in line && Blank(blank)
    ensures Strip(Before(line + blank, '#')) == Strip(Before(line, '#'))
  {
    assert '#' !in blank;
    BeforeNone(line + blank, '#');
    BeforeNone(line, '#');
    AlreadyStripped(line);
    StripBlanks([], line, blank);
  }

  lemma ReadEmpty(name: string, blank: string)
    requires name != [] && Stripped(name) && '#' !in name && ':' !in name && Blank(blank)
    ensures Lex(name + [':'] + blank) == Field(Lower(name), "")
  {
    var head := name + [':'];
    assert head[0] == name[0] && Stripped(head);
    BlankTail(head, blank);
    assert Lex(head + blank) == Lex(head);
    assert name + [':'] + [] == head;
    ReadPlain(name, []);
  }

  /** Product tokens are read up to their version, in any case. */
  lemma {:induction false} TokenPrefixReads(name: string, suffix: string)
    requires (forall c | c in name :: TokenChar(c)) && (suffix == [] || !TokenChar(suffix[0]))
    ensures TokenPrefix(name + suffix) == name
  {
    if name == [] {
      assert name + suffix == suffix;
    } else {
      assert (name + suffix)[1..] == name[1..] + suffix;
      TokenPrefixReads(name[1..], suffix);
    }
  }

  /** `User-agent: NewsForge/0.1` names `newsforge`. */
  lemma UserAgentLine(blank: string, name: string, suffix: string)
    requires Blank(blank) && name != []
    requires forall c | c in name :: 'a' <= c <= 'z' || 'A' <= c <= 'Z' || c == '_' || c == '-'
    requires suffix == [] || suffix[0] == '/' || suffix[0] == ' ' || suffix[0] == '.' || '0' <= suffix[0] <= '9'
    requires Stripped(name + suffix) && '#' !in suffix
    ensures Lex("User-agent:" + (blank + (name + suffix))) == UserAgent(Lower(name))
  {
    assert "User-agent:" == "User-agent" + [':'] && Lower("User-agent") == "user-agent";
    assert '#' !in name;
    ReadField("User-agent", blank, name + suffix);
    TokenReads(name, suffix);
  }

  lemma TokenReads(name: string, suffix: string)
    requires name != [] && (forall c | c in name :: TokenChar(c)) && (suffix == [] || !TokenChar(suffix[0]))
    requires Stripped(name + suffix)
    ensures AgentToken(name + suffix) == Lower(name)
  {
    AlreadyStripped(name + suffix);
    assert (name + suffix)[0] == name[0] && name[0] in name;
    TokenPrefixReads(name, suffix);
  }

  lemma StarLine(blank: string)
    requires Blank(blank)
    ensures Lex("User-agent:" + (blank + "*")) == UserAgent("*")
  {
    assert "User-agent:" == "User-agent" + [':'] && Lower("User-agent") == "user-agent";
    ReadField("User-agent", blank, "*");
    AlreadyStripped("*");
  }

  lemma DirectiveLine(blank: string, d: Directive)
    requires Blank(blank) && Stripped(d.value) && '#' !in d.value
    ensures Lex((if d.allow then "Allow:" else "Disallow:") + (blank + d.value)) == RuleLine(d)
  {
    assert Lower("Allow") == "allow" && Lower("Disallow") == "disallow";
    assert "Allow:" == "Allow" + [':'] && "Disallow:" == "Disallow" + [':'];
    ReadField(if d.allow then "Allow" else "Disallow", blank, d.value);
  }

  function LexAll(raw: seq<string>): (lines: seq<Line>)
    ensures |lines| == |raw|
  {
    seq(|raw|, i requires 0 <= i < |raw| => Lex(raw[i]))
  }

  // ---------------------------------------------------------------------------------------------
  // The reference: cut into groups, combine the groups that apply
  // ---------------------------------------------------------------------------------------------

  datatype Group = Group(agents: seq<string>, rules: seq<Directive>)

  function Significant(lines: seq<Line>): seq<Line> {
    if lines == [] then []
    else if lines[0].Unrelated? then Significant(lines[1..])
    else [lines[0]] + Significant(lines[1..])
  }

  function Agents(lines: seq<Line>): (agents: seq<string>)
    ensures |agents| <= |lines|
    ensures forall i | 0 <= i < |agents| :: lines[i] == UserAgent(agents[i])
    ensures |agents| < |lines| ==> !lines[|agents|].UserAgent?
  {
    if lines != [] && lines[0].UserAgent? then [lines[0].token] + Agents(lines[1..]) else []
  }

  function Rules(lines: seq<Line>): (rules: seq<Directive>)
    ensures |rules| <= |lines|
    ensures forall i | 0 <= i < |rules| :: lines[i] == RuleLine(rules[i])
    ensures |rules| < |lines| ==> !lines[|rules|].RuleLine?
  {
    if lines != [] && lines[0].RuleLine? then [lines[0].d] + Rules(lines[1..]) else []
  }

  predicate Plain(lines: seq<Line>) { forall l | l in lines :: !l.Unrelated? }

  /** A group is a run of user-agent lines and the rules up to the next user-agent line. */
  function Cut(lines: seq<Line>): seq<Group>
    requires Plain(lines)
    decreases |lines|
  {
    if lines == [] then []
    else
      var agents := Agents(lines);
      var rules := Rules(lines[|agents|..]);
      [Group(agents, rules)] + Cut(lines[|agents| + |rules|..])
  }

  lemma SignificantOnly(lines: seq<Line>)
    ensures Plain(Significant(lines))
  {
  }

  function GroupsOf(lines: seq<Line>): seq<Group> {
    SignificantOnly(lines);
    Cut(Significant(lines))
  }

  predicate OwnIn(agents: seq<string>, token: string) { token != "" && token in agents }

  predicate StarIn(agents: seq<string>, token: string) { token != "*" && "*" in agents }

  predicate NamesToken(g: Group, token: string) { OwnIn(g.agents, token) }

  predicate NamesStar(g: Group, token: string) { StarIn(g.agents, token) }

  /** An empty rule matches nothing. */
  predicate Meaningful(d: Directive) { d.value != "" }

  /** The parser ignores oversized patterns; the standard knows no such limit. */
  predicate Brief(d: Directive) { |d.value| <= MAX_PATTERN_CHARS }

  predicate Usable(d: Directive) { Meaningful(d) && Brief(d) }

  function MeaningfulRules(ds: seq<Directive>): seq<Directive> {
    if ds == [] then []
    else if Meaningful(ds[0]) then [ds[0]] + MeaningfulRules(ds[1..])
    else MeaningfulRules(ds[1..])
  }

  predicate Named(groups: seq<Group>, token: string) {
    exists i | 0 <= i < |groups| :: NamesToken(groups[i], token)
  }

  function TokenRules(groups: seq<Group>, token: string): seq<Directive> {
    if groups == [] then []
    else if NamesToken(groups[0], token) then MeaningfulRules(groups[0].rules) + TokenRules(groups[1..], token)
    else TokenRules(groups[1..], token)
  }

  function StarRules(groups: seq<Group>, token: string): seq<Directive> {
    if groups == [] then []
    else if NamesStar(groups[0], token) then MeaningfulRules(groups[0].rules) + StarRules(groups[1..], token)
    else StarRules(groups[1..], token)
  }

  /** The policy of section 2.2.1: the groups naming the token, else the `*` groups. */
  function Policy(lines: seq<Line>, token: string): seq<Directive> {
    var groups := GroupsOf(lines);
    if Named(groups, token) then TokenRules(groups, token) else StarRules(groups, token)
  }

  /** A usable rule of a group that names the token, or `*`, or both. */
  datatype Entry = Entry(d: Directive, own: bool, star: bool)

  function EntriesOf(ds: seq<Directive>, own: bool, star: bool): seq<Entry> {
    if ds == [] then []
    else if Usable(ds[0]) && (own || star) then [Entry(ds[0], own, star)] + EntriesOf(ds[1..], own, star)
    else EntriesOf(ds[1..], own, star)
  }

  function Relevant(groups: seq<Group>, token: string): seq<Entry> {
    if groups == [] then []
    else
      var g := groups[0];
      EntriesOf(g.rules, NamesToken(g, token), NamesStar(g, token)) + Relevant(groups[1..], token)
  }

  function Own(es: seq<Entry>): (ds: seq<Directive>)
    ensures |ds| <= |es|
  {
    if es == [] then [] else if es[0].own then [es[0].d] + Own(es[1..]) else Own(es[1..])
  }

  function Star(es: seq<Entry>): (ds: seq<Directive>)
    ensures |ds| <= |es|
  {
    if es == [] then [] else if es[0].star then [es[0].d] + Star(es[1..]) else Star(es[1..])
  }

  function Budget(es: seq<Entry>): (kept: seq<Entry>)
    ensures |kept| <= MAX_RULES
  {
    if |es| <= MAX_RULES then es else es[..MAX_RULES]
  }

  /** What the parser computes: only the first MAX_RULES relevant rules of the file count. */
  function CappedPolicy(lines: seq<Line>, token: string): (ds: seq<Directive>)
    ensures |ds| <= MAX_RULES
  {
    var groups := GroupsOf(lines);
    var kept := Budget(Relevant(groups, token));
    if Named(groups, token) then Own(kept) else Star(kept)
  }

  // ---------------------------------------------------------------------------------------------
  // The one-pass parser
  // ---------------------------------------------------------------------------------------------

  /** The parser's variables with an unlimited budget. */
  datatype Scan = Scan(entries: seq<Entry>, named: bool, forOwn: bool, forStar: bool, inRules: bool)

  const START := Scan([], false, false, false, false)

  function Step(s: Scan, line: Line, token: string): Scan {
    match line
    case Unrelated => s
    case UserAgent(agent) =>
      var s := if s.inRules then s.(forOwn := false, forStar := false, inRules := false) else s;
      if token != "" && agent == token then s.(forOwn := true, named := true)
      else if agent == "*" then s.(forStar := true)
      else s
    case RuleLine(d) =>
      var s := s.(inRules := true);
      if Usable(d) && (s.forOwn || s.forStar) then s.(entries := s.entries + [Entry(d, s.forOwn, s.forStar)]) else s
  }

  function Fold(s: Scan, lines: seq<Line>, token: string): Scan
    decreases |lines|
  {
    if lines == [] then s else Fold(Step(s, lines[0], token), lines[1..], token)
  }

  lemma {:induction false} FoldAppend(s: Scan, a: seq<Line>, b: seq<Line>, token: string)
    ensures Fold(s, a + b, token) == Fold(Fold(s, a, token), b, token)
    decreases |a|
  {
    if a == [] {
      assert a + b == b;
    } else {
      assert (a + b)[0] == a[0] && (a + b)[1..] == a[1..] + b;
      FoldAppend(Step(s, a[0], token), a[1..], b, token);
    }
  }

  function ToRules(ds: seq<Directive>, norm: string -> string): (rules: seq<Rule>)
    ensures |rules| == |ds|
    ensures forall i | 0 <= i < |ds| :: rules[i] == MakeRule(ds[i].allow, ds[i].value, norm)
  {
    seq(|ds|, i requires 0 <= i < |ds| => MakeRule(ds[i].allow, ds[i].value, norm))
  }

  lemma {:induction false} SelectConcat(a: seq<Entry>, b: seq<Entry>)
    ensures Own(a + b) == Own(a) + Own(b) && Star(a + b) == Star(a) + Star(b)
  {
    if a == [] {
      assert a + b == b;
    } else {
      assert (a + b)[0] == a[0] && (a + b)[1..] == a[1..] + b;
      SelectConcat(a[1..], b);
    }
  }

  /** One more relevant rule: kept while the budget lasts. */
  lemma KeepStep(es: seq<Entry>, e: Entry, norm: string -> string)
    ensures var old', new' := Budget(es), Budget(es + [e]);
            var rule := MakeRule(e.d.allow, e.d.value, norm);
            if |old'| < MAX_RULES then
              && |new'| == |old'| + 1
              && ToRules(Own(new'), norm) == ToRules(Own(old'), norm) + (if e.own then [rule] else [])
              && ToRules(Star(new'), norm) == ToRules(Star(old'), norm) + (if e.star then [rule] else [])
            else new' == old'
  {
    if |es| < MAX_RULES {
      SelectConcat(es, [e]);
      assert [e][1..] == [];
    } else {
      assert (es + [e])[..MAX_RULES] == es[..MAX_RULES];
    }
  }

  ghost predicate Kept(own: seq<Rule>, star: seq<Rule>, count: nat, entries: seq<Entry>, norm: string -> string) {
    var kept := Budget(entries);
    own == ToRules(Own(kept), norm) && star == ToRules(Star(kept), norm) && count == |kept|
  }

  /** The body of the rule branch: store the rule under each flag while the budget lasts. */
  method Keep(own: seq<Rule>, star: seq<Rule>, count: nat, d: Directive, forOwn: bool, forStar: bool,
              norm: string -> string, ghost entries: seq<Entry>)
    returns (own': seq<Rule>, star': seq<Rule>, count': nat)
    requires Kept(own, star, count, entries, norm)
    ensures Kept(own', star', count', entries + [Entry(d, forOwn, forStar)], norm)
  {
    own', star', count' := own, star, count;
    KeepStep(entries, Entry(d, forOwn, forStar), norm);
    if count < MAX_RULES {
      count' := count + 1;
      var rule := MakeRule(d.allow, d.value, norm);
      if forOwn {
        own' := own + [rule];
      }
      if forStar {
        star' := star + [rule];
      }
    }
  }

  predicate SameFlags(s: Scan, named: bool, forOwn: bool, forStar: bool, inRules: bool) {
    s.named == named && s.forOwn == forOwn && s.forStar == forStar && s.inRules == inRules
  }

  /** The user-agent branch: a new group clears the flags, its agents set them. */
  method Enter(agent: string, token: string, named: bool, forOwn: bool, forStar: bool, inRules: bool, ghost s: Scan)
    returns (named': bool, forOwn': bool, forStar': bool, inRules': bool)
    requires SameFlags(s, named, forOwn, forStar, inRules)
    ensures SameFlags(Step(s, UserAgent(agent), token), named', forOwn', forStar', inRules')
    ensures Step(s, UserAgent(agent), token).entries == s.entries
  {
    named', forOwn', forStar', inRules' := named, forOwn, forStar, inRules;
    if inRules {
      forOwn', forStar', inRules' := false, false, false;
    }
    if token != "" && agent == token {
      forOwn', named' := true, true;
    } else if agent == "*" {
      forStar' := true;
    }
  }

  /** The rule branch. */
  method Take(d: Directive, token: string, own: seq<Rule>, star: seq<Rule>, count: nat, forOwn: bool, forStar: bool,
              norm: string -> string, ghost s: Scan)
    returns (own': seq<Rule>, star': seq<Rule>, count': nat)
    requires s.forOwn == forOwn && s.forStar == forStar && Kept(own, star, count, s.entries, norm)
    ensures Kept(own', star', count', Step(s, RuleLine(d), token).entries, norm)
    ensures SameFlags(Step(s, RuleLine(d), token), s.named, s.forOwn, s.forStar, true)
  {
    own', star', count' := own, star, count;
    if (forOwn || forStar) && Usable(d) {
      own', star', count' := Keep(own, star, count, d, forOwn, forStar, norm, s.entries);
    }
  }

  lemma KeptIsCapped(own: seq<Rule>, star: seq<Rule>, count: nat, scan: Scan, lines: seq<Line>, token: string,
                     norm: string -> string)
    requires scan == Fold(START, lines, token) && Kept(own, star, count, scan.entries, norm)
    ensures (if scan.named then own else star) == ToRules(CappedPolicy(lines, token), norm)
  {
    ScanIsCut(lines, token);
  }

  /** `_rules_for`: the flags and the budget agree with the two-phase definition. */
  method RulesFor(raw: seq<string>, token: string, norm: string -> string) returns (rules: seq<Rule>)
    ensures rules == ToRules(CappedPolicy(LexAll(raw), token), norm)
  {
    var own: seq<Rule>, star: seq<Rule> := [], [];
    var named, forOwn, forStar, inRules := false, false, false, false;
    var count: nat := 0;
    var lines := LexAll(raw);
    ghost var scan := START;
    for k := 0 to |lines|
      invariant Fold(scan, lines[k..], token) == Fold(START, lines, token)
      invariant SameFlags(scan, named, forOwn, forStar, inRules)
      invariant Kept(own, star, count, scan.entries, norm)
    {
      match lines[k] {
        case Unrelated =>
        case UserAgent(agent) =>
          named, forOwn, forStar, inRules := Enter(agent, token, named, forOwn, forStar, inRules, scan);
        case RuleLine(d) =>
          inRules := true;
          own, star, count := Take(d, token, own, star, count, forOwn, forStar, norm, scan);
      }
      scan := Step(scan, lines[k], token);
    }
    KeptIsCapped(own, star, count, scan, lines, token, norm);
    return if named then own else star;
  }

  // ---------------------------------------------------------------------------------------------
  // The parser computes the reference
  // ---------------------------------------------------------------------------------------------

  lemma {:induction false} FoldSignificant(s: Scan, lines: seq<Line>, token: string)
    ensures Fold(s, lines, token) == Fold(s, Significant(lines), token)
    decreases |lines|
  {
    if lines != [] {
      FoldSignificant(Step(s, lines[0], token), lines[1..], token);
      if !lines[0].Unrelated? {
        assert Significant(lines)[1..] == Significant(lines[1..]);
      }
    }
  }

  function AgentLines(agents: seq<string>): (lines: seq<Line>)
    ensures |lines| == |agents| && forall i | 0 <= i < |agents| :: lines[i] == UserAgent(agents[i])
  {
    seq(|agents|, i requires 0 <= i < |agents| => UserAgent(agents[i]))
  }

  function RuleLines(ds: seq<Directive>): (lines: seq<Line>)
    ensures |lines| == |ds| && forall i | 0 <= i < |ds| :: lines[i] == RuleLine(ds[i])
  {
    seq(|ds|, i requires 0 <= i < |ds| => RuleLine(ds[i]))
  }

  lemma {:induction false} FoldAgents(s: Scan, agents: seq<string>, token: string)
    requires !s.inRules
    ensures Fold(s, AgentLines(agents), token) == s.(
              forOwn := s.forOwn || OwnIn(agents, token),
              forStar := s.forStar || StarIn(agents, token),
              named := s.named || OwnIn(agents, token))
    decreases |agents|
  {
    if agents != [] {
      assert AgentLines(agents)[1..] == AgentLines(agents[1..]);
      FoldAgents(Step(s, UserAgent(agents[0]), token), agents[1..], token);
      assert agents == [agents[0]] + agents[1..];
    }
  }

  lemma {:induction false} FoldRules(s: Scan, ds: seq<Directive>, token: string)
    ensures Fold(s, RuleLines(ds), token) == s.(
              entries := s.entries + EntriesOf(ds, s.forOwn, s.forStar),
              inRules := s.inRules || ds != [])
    decreases |ds|
  {
    if ds != [] {
      assert RuleLines(ds)[1..] == RuleLines(ds[1..]);
      FoldRules(Step(s, RuleLine(ds[0]), token), ds[1..], token);
    }
  }

  /** Between groups the flags either are clear or are cleared by the next user-agent line. */
  predicate AtBoundary(s: Scan, agents: seq<string>) {
    (!s.forOwn && !s.forStar) || (s.inRules && agents != [])
  }

  lemma FoldFreshAgents(s: Scan, agents: seq<string>, token: string)
    requires AtBoundary(s, agents)
    ensures var s' := Fold(s, AgentLines(agents), token);
            && s'.entries == s.entries && s'.named == (s.named || OwnIn(agents, token))
            && s'.forOwn == OwnIn(agents, token) && s'.forStar == StarIn(agents, token)
  {
    if agents != [] {
      var c := s.(forOwn := false, forStar := false, inRules := false);
      assert Step(s, UserAgent(agents[0]), token) == Step(c, UserAgent(agents[0]), token);
      FoldAgents(c, agents, token);
    }
  }

  /** One group: its agents set the flags, its rules become entries. */
  lemma FoldGroup(s: Scan, g: Group, token: string)
    requires AtBoundary(s, g.agents)
    ensures var s' := Fold(s, AgentLines(g.agents) + RuleLines(g.rules), token);
            && s'.entries == s.entries + EntriesOf(g.rules, NamesToken(g, token), NamesStar(g, token))
            && s'.named == (s.named || NamesToken(g, token))
            && (g.rules != [] ==> s'.inRules)
  {
    FoldAppend(s, AgentLines(g.agents), RuleLines(g.rules), token);
    FoldFreshAgents(s, g.agents, token);
    FoldRules(Fold(s, AgentLines(g.agents), token), g.rules, token);
  }

  /** A run of user-agent lines, a run of rules, and the rest, as lists of lines. */
  lemma HeadLines(lines: seq<Line>, agents: seq<string>, rules: seq<Directive>)
    requires |agents| + |rules| <= |lines|
    requires forall i | 0 <= i < |agents| :: lines[i] == UserAgent(agents[i])
    requires forall i | 0 <= i < |rules| :: lines[|agents| + i] == RuleLine(rules[i])
    ensures lines == AgentLines(agents) + RuleLines(rules) + lines[|agents| + |rules|..]
  {
  }

  /** The first group and what follows it: nothing, or a user-agent line after some rule. */
  lemma {:induction false} CutHead(lines: seq<Line>) returns (g: Group, rest: seq<Line>)
    requires lines != [] && Plain(lines)
    ensures lines == AgentLines(g.agents) + RuleLines(g.rules) + rest && |rest| < |lines|
    ensures Plain(rest) && Cut(lines) == [g] + Cut(rest)
    ensures lines[0].UserAgent? <==> g.agents != []
    ensures rest == [] || (g.rules != [] && rest[0].UserAgent?)
  {
    var agents := Agents(lines);
    var after := lines[|agents|..];
    var rules := Rules(after);
    assert forall i | 0 <= i < |rules| :: lines[|agents| + i] == after[i];
    HeadLines(lines, agents, rules);
    g, rest := Group(agents, rules), lines[|agents| + |rules|..];
    EndOfGroup(lines, agents, rules);
  }

  lemma EndOfGroup(lines: seq<Line>, agents: seq<string>, rules: seq<Directive>)
    requires lines != [] && Plain(lines)
    requires agents == Agents(lines) && rules == Rules(lines[|agents|..])
    ensures |agents| + |rules| > 0
    ensures var rest := lines[|agents| + |rules|..]; rest == [] || (rules != [] && rest[0].UserAgent?)
    ensures lines[0].UserAgent? <==> agents != []
  {
    var after := lines[|agents|..];
    assert after != [] ==> after[0] == lines[|agents|] && after[0] in lines;
    if |rules| < |after| {
      assert after[|rules|] == lines[|agents| + |rules|] && after[|rules|] in lines;
    }
  }

  /** Scanning `lines` from `s` adds what the groups say. */
  predicate Adds(s: Scan, lines: seq<Line>, groups: seq<Group>, token: string) {
    var s' := Fold(s, lines, token);
    && s'.entries == s.entries + Relevant(groups, token)
    && s'.named == (s.named || Named(groups, token))
  }

  lemma AddsGroup(s: Scan, g: Group, rest: seq<Line>, groups: seq<Group>, token: string)
    requires AtBoundary(s, g.agents)
    requires Adds(Fold(s, AgentLines(g.agents) + RuleLines(g.rules), token), rest, groups, token)
    ensures Adds(s, AgentLines(g.agents) + RuleLines(g.rules) + rest, [g] + groups, token)
  {
    FoldAppend(s, AgentLines(g.agents) + RuleLines(g.rules), rest, token);
    FoldGroup(s, g, token);
    GroupsHead(g, groups, token);
  }

  lemma {:induction false} FoldCut(s: Scan, lines: seq<Line>, token: string)
    requires lines == [] || (!s.forOwn && !s.forStar) || (s.inRules && lines[0].UserAgent?)
    requires Plain(lines)
    ensures Adds(s, lines, Cut(lines), token)
    decreases |lines|
  {
    if lines != [] {
      var g, rest := CutHead(lines);
      FoldGroup(s, g, token);
      FoldCut(Fold(s, AgentLines(g.agents) + RuleLines(g.rules), token), rest, token);
      AddsGroup(s, g, rest, Cut(rest), token);
    }
  }

  lemma GroupsHead(g: Group, rest: seq<Group>, token: string)
    ensures Named([g] + rest, token) <==> NamesToken(g, token) || Named(rest, token)
    ensures Relevant([g] + rest, token) ==
            EntriesOf(g.rules, NamesToken(g, token), NamesStar(g, token)) + Relevant(rest, token)
  {
    var all := [g] + rest;
    assert all[1..] == rest;
    if Named(rest, token) {
      var i :| 0 <= i < |rest| && NamesToken(rest[i], token);
      assert NamesToken(all[i + 1], token);
    }
    if NamesToken(g, token) {
      assert NamesToken(all[0], token);
    }
    if Named(all, token) && !NamesToken(g, token) {
      var i :| 0 <= i < |all| && NamesToken(all[i], token);
      assert NamesToken(rest[i - 1], token);
    }
  }

  lemma {:induction false} ScanIsCut(lines: seq<Line>, token: string)
    ensures var s := Fold(START, lines, token);
            s.entries == Relevant(GroupsOf(lines), token) && s.named == Named(GroupsOf(lines), token)
  {
    SignificantOnly(lines);
    FoldSignificant(START, lines, token);
    FoldCut(START, Significant(lines), token);
  }

  function BriefRules(ds: seq<Directive>): seq<Directive> {
    if ds == [] then [] else if Brief(ds[0]) then [ds[0]] + BriefRules(ds[1..]) else BriefRules(ds[1..])
  }

  lemma {:induction false} BriefConcat(a: seq<Directive>, b: seq<Directive>)
    ensures BriefRules(a + b) == BriefRules(a) + BriefRules(b)
  {
    if a == [] {
      assert a + b == b;
    } else {
      assert (a + b)[0] == a[0] && (a + b)[1..] == a[1..] + b;
      BriefConcat(a[1..], b);
    }
  }

  /** Leaving out oversized patterns keeps the length exactly when there are none. */
  lemma {:induction false} BriefIsAll(ds: seq<Directive>)
    ensures |BriefRules(ds)| <= |ds|
    ensures |BriefRules(ds)| == |ds| <==> forall d | d in ds :: Brief(d)
    ensures |BriefRules(ds)| == |ds| ==> BriefRules(ds) == ds
  {
    if ds != [] {
      BriefIsAll(ds[1..]);
      assert ds == [ds[0]] + ds[1..];
    }
  }

  lemma {:induction false} EntriesSelect(ds: seq<Directive>, own: bool, star: bool)
    ensures Own(EntriesOf(ds, own, star)) == if own then BriefRules(MeaningfulRules(ds)) else []
    ensures Star(EntriesOf(ds, own, star)) == if star then BriefRules(MeaningfulRules(ds)) else []
  {
    if ds != [] {
      EntriesSelect(ds[1..], own, star);
      if Usable(ds[0]) && (own || star) {
        assert EntriesOf(ds, own, star)[1..] == EntriesOf(ds[1..], own, star);
      }
      if Meaningful(ds[0]) {
        assert MeaningfulRules(ds)[1..] == MeaningfulRules(ds[1..]);
      }
    }
  }

  lemma {:induction false} RelevantSelect(groups: seq<Group>, token: string)
    ensures Own(Relevant(groups, token)) == BriefRules(TokenRules(groups, token))
    ensures Star(Relevant(groups, token)) == BriefRules(StarRules(groups, token))
  {
    if groups != [] {
      var g := groups[0];
      RelevantSelect(groups[1..], token);
      EntriesSelect(g.rules, NamesToken(g, token), NamesStar(g, token));
      SelectConcat(EntriesOf(g.rules, NamesToken(g, token), NamesStar(g, token)), Relevant(groups[1..], token));
      BriefConcat(MeaningfulRules(g.rules), TokenRules(groups[1..], token));
      BriefConcat(MeaningfulRules(g.rules), StarRules(groups[1..], token));
    }
  }

  /** A relevant rule counts for the verdict: it is the crawler's own, or nobody names the crawler. */
  predicate Applies(e: Entry, named: bool) { if named then e.own else e.star }

  lemma {:induction false} NoneApplies(es: seq<Entry>)
    ensures Own(es) == [] <==> forall e | e in es :: !Applies(e, true)
    ensures Star(es) == [] <==> forall e | e in es :: !Applies(e, false)
  {
    if es != [] {
      NoneApplies(es[1..]);
      assert es[0] in es && forall e | e in es[1..] :: e in es;
      assert Own(es) == [] <==> !Applies(es[0], true) && Own(es[1..]) == [];
      assert Star(es) == [] <==> !Applies(es[0], false) && Star(es[1..]) == [];
    }
  }

  /** The entries the budget leaves out. */
  function PastBudget(es: seq<Entry>): (past: seq<Entry>)
    ensures Budget(es) + past == es
  {
    if |es| <= 2_000 then [] else es[2_000..]
  }

  /** Every pattern of the policy is short enough for the parser. */
  predicate AllBrief(ds: seq<Directive>) { forall d | d in ds :: |d.value| <= 2_048 }

  /** Keeping part of the short rules keeps all rules exactly when nothing was left out on either ground. */
  lemma KeptAll(policy: seq<Directive>, kept: seq<Directive>, past: seq<Directive>)
    requires BriefRules(policy) == kept + past
    ensures kept == policy <==> AllBrief(policy) && past == []
  {
    BriefIsAll(policy);
    if kept == policy {
      assert |kept + past| == |kept| + |past|;
    }
    if past == [] {
      assert kept + past == kept;
    }
  }

  /**
   * The parser computes the policy of the standard exactly when no pattern of it is oversized and no
   * rule past the budget would have counted.
   */
  lemma PolicyIsExact(lines: seq<Line>, token: string)
    ensures CappedPolicy(lines, token) == Policy(lines, token) <==>
            && AllBrief(Policy(lines, token))
            && forall e | e in PastBudget(Relevant(GroupsOf(lines), token)) ::
                !Applies(e, Named(GroupsOf(lines), token))
  {
    var all := Relevant(GroupsOf(lines), token);
    var kept, past := Budget(all), PastBudget(all);
    RelevantSelect(GroupsOf(lines), token);
    SelectConcat(kept, past);
    NoneApplies(past);
    if Named(GroupsOf(lines), token) {
      KeptAll(Policy(lines, token), Own(kept), Own(past));
    } else {
      KeptAll(Policy(lines, token), Star(kept), Star(past));
    }
  }

  /** Files whose relevant rules fit the budget and whose patterns are short get exactly that policy. */
  lemma WithinBudgetIsPolicy(lines: seq<Line>, token: string)
    requires |Relevant(GroupsOf(lines), token)| <= MAX_RULES && AllBrief(Policy(lines, token))
    ensures CappedPolicy(lines, token) == Policy(lines, token)
  {
    PolicyIsExact(lines, token);
  }

  /** A comment, a blank line, a sitemap: dropped anywhere, nothing changes. */
  lemma UnrelatedLineIsIgnored(a: seq<Line>, b: seq<Line>, token: string)
    ensures CappedPolicy(a + [Unrelated] + b, token) == CappedPolicy(a + b, token)
  {
    FoldAppend(START, a + [Unrelated], b, token);
    FoldAppend(START, a, [Unrelated], token);
    FoldAppend(START, a, b, token);
    ScanIsCut(a + [Unrelated] + b, token);
    ScanIsCut(a + b, token);
  }

  /** A whole group for other agents, put between two groups, changes nothing. */
  lemma UnrelatedGroupIsIgnored(a: seq<Line>, g: Group, b: seq<Line>, token: string)
    requires g.agents != [] && g.rules != [] && token !in g.agents && "*" !in g.agents
    requires a == [] || a[|a| - 1].RuleLine?
    requires b == [] || b[0].UserAgent?
    ensures CappedPolicy(a + (AgentLines(g.agents) + RuleLines(g.rules)) + b, token) == CappedPolicy(a + b, token)
  {
    var s := Fold(START, a, token);
    var block := AgentLines(g.agents) + RuleLines(g.rules);
    FoldAppend(START, a + block, b, token);
    FoldAppend(START, a, block, token);
    FoldAppend(START, a, b, token);
    EndsInRules(a, token);
    FoldGroup(s, g, token);
    NoEntries(g.rules);
    var t := Fold(s, block, token);
    assert t.entries == s.entries && t.named == s.named;
    assert b != [] ==> Step(t, b[0], token) == Step(s, b[0], token);
    ScanIsCut(a + block + b, token);
    ScanIsCut(a + b, token);
  }

  lemma EndsInRules(a: seq<Line>, token: string)
    requires a == [] || a[|a| - 1].RuleLine?
    ensures var s := Fold(START, a, token); s.inRules || s == START
  {
    if a != [] {
      assert a == a[..|a| - 1] + [a[|a| - 1]];
      FoldAppend(START, a[..|a| - 1], [a[|a| - 1]], token);
    }
  }

  lemma {:induction false} NoEntries(ds: seq<Directive>)
    ensures EntriesOf(ds, false, false) == []
  {
    if ds != [] { NoEntries(ds[1..]); }
  }

  /** A file with `*` rules first and the crawler's own group after them. */
  function StarThenOwn(star: seq<Directive>, own: seq<Directive>, token: string): seq<Line> {
    [UserAgent("*")] + RuleLines(star) + [UserAgent(token)] + RuleLines(own)
  }

  lemma ScanStarThenOwn(star: seq<Directive>, own: seq<Directive>, token: string)
    requires token != "" && token != "*" && star != []
    ensures var s := Fold(START, StarThenOwn(star, own, token), token);
            s.named && s.entries == EntriesOf(star, false, true) + EntriesOf(own, true, false)
  {
    var g, h := Group(["*"], star), Group([token], own);
    var a, b := AgentLines(g.agents) + RuleLines(star), AgentLines(h.agents) + RuleLines(own);
    assert StarThenOwn(star, own, token) == a + b;
    FoldAppend(START, a, b, token);
    FoldGroup(START, g, token);
    FoldGroup(Fold(START, a, token), h, token);
  }

  /** Enough `*` rules use up the budget before any own rule. */
  lemma StarFillsBudget(star: seq<Directive>, rest: seq<Entry>)
    requires |star| >= MAX_RULES && forall d | d in star :: Usable(d)
    ensures Own(Budget(EntriesOf(star, false, true) + rest)) == []
  {
    var es := EntriesOf(star, false, true);
    AllUsable(star, false, true);
    assert (es + rest)[..MAX_RULES] == es[..MAX_RULES];
    assert es + rest == es || |es + rest| > MAX_RULES;
    NoneApplies(es);
    NoneApplies(es[..MAX_RULES]);
  }

  function Written(g: Group, rest: seq<Line>): seq<Line> { AgentLines(g.agents) + RuleLines(g.rules) + rest }

  /** A group ends where the next one starts. */
  predicate Ends(g: Group, rest: seq<Line>) { rest == [] || (g.rules != [] && rest[0].UserAgent?) }

  /** Lines can be read as a group and a rest in one way only. */
  lemma OneReading(g: Group, rest: seq<Line>, g': Group, rest': seq<Line>)
    requires g.rules != [] && Ends(g, rest) && Ends(g', rest') && Written(g, rest) == Written(g', rest')
    ensures g == g' && rest == rest'
  {
    var lines := Written(g, rest);
    var n, n' := |g.agents|, |g'.agents|;
    assert lines[n] == RuleLine(g.rules[0]);
    assert forall i | 0 <= i < n :: lines[i] == UserAgent(g.agents[i]);
    assert forall i | 0 <= i < n' :: lines[i] == UserAgent(g'.agents[i]);
    assert g'.rules == [] ==> |lines| == n';
    assert g'.rules != [] ==> lines[n'] == RuleLine(g'.rules[0]);
    assert n == n';
    SameAgents(g, rest, g', rest');
  }

  lemma SameAgents(g: Group, rest: seq<Line>, g': Group, rest': seq<Line>)
    requires Ends(g, rest) && Ends(g', rest') && Written(g, rest) == Written(g', rest') && |g.agents| == |g'.agents|
    ensures g == g' && rest == rest'
  {
    var tail, tail' := RuleLines(g.rules) + rest, RuleLines(g'.rules) + rest';
    var lines, n := Written(g, rest), |g.agents|;
    assert lines == AgentLines(g.agents) + tail && lines == AgentLines(g'.agents) + tail';
    assert AgentLines(g.agents) == lines[..n] && AgentLines(g'.agents) == lines[..n];
    assert tail == lines[n..] && tail' == lines[n..];
    SameNames(g.agents, g'.agents);
    SameRules(g.rules, rest, g'.rules, rest');
  }

  lemma SameNames(a: seq<string>, b: seq<string>)
    requires AgentLines(a) == AgentLines(b)
    ensures a == b
  {
    assert |a| == |AgentLines(a)| && |b| == |AgentLines(b)|;
    assert forall i | 0 <= i < |a| :: AgentLines(a)[i] == UserAgent(a[i]) && AgentLines(b)[i] == UserAgent(b[i]);
  }

  lemma {:induction false} SameRules(a: seq<Directive>, x: seq<Line>, b: seq<Directive>, y: seq<Line>)
    requires RuleLines(a) + x == RuleLines(b) + y && (x == [] || x[0].UserAgent?) && (y == [] || y[0].UserAgent?)
    ensures a == b && x == y
    decreases |a|
  {
    var lines := RuleLines(a) + x;
    if a != [] && b != [] {
      assert lines[0] == RuleLine(a[0]) && lines[0] == RuleLine(b[0]);
      assert lines[1..] == RuleLines(a[1..]) + x && lines[1..] == RuleLines(b[1..]) + y;
      SameRules(a[1..], x, b[1..], y);
    } else {
      assert (a == [] ==> lines == x) && (b == [] ==> lines == y);
    }
  }

  /** A group written out is cut off as that group. */
  lemma CutGroup(lines: seq<Line>, g: Group, rest: seq<Line>)
    requires lines == Written(g, rest) && Plain(lines) && Plain(rest) && g.rules != [] && Ends(g, rest)
    ensures Cut(lines) == [g] + Cut(rest)
  {
    assert lines != [];
    var g', rest' := CutHead(lines);
    OneReading(g, rest, g', rest');
  }

  lemma {:induction false} AllSignificant(lines: seq<Line>)
    requires Plain(lines)
    ensures Significant(lines) == lines
  {
    if lines != [] {
      AllSignificant(lines[1..]);
      assert !lines[0].Unrelated? && lines == [lines[0]] + lines[1..];
    }
  }

  lemma StarThenOwnGroups(star: seq<Directive>, own: seq<Directive>, token: string)
    requires star != [] && own != []
    ensures GroupsOf(StarThenOwn(star, own, token)) == [Group(["*"], star), Group([token], own)]
  {
    var g, h, lines := Group(["*"], star), Group([token], own), StarThenOwn(star, own, token);
    var rest := Written(h, []);
    assert rest[0] == UserAgent(token);
    assert lines == Written(g, rest);
    CutGroup(rest, h, []);
    CutGroup(lines, g, rest);
    AllSignificant(lines);
  }

  lemma OwnRulesOf(star: seq<Directive>, own: seq<Directive>, token: string)
    requires token != "" && token != "*" && star != [] && own != [] && forall d | d in own :: Usable(d)
    ensures Policy(StarThenOwn(star, own, token), token) == own
  {
    var groups := [Group(["*"], star), Group([token], own)];
    StarThenOwnGroups(star, own, token);
    assert NamesToken(groups[1], token) && !NamesToken(groups[0], token);
    assert groups[1..] == [groups[1]] && groups[1..][1..] == [];
    UsableIsAll(own);
    assert TokenRules(groups[1..], token) == own + TokenRules([], token);
  }

  /** The budget is shared: enough `*` rules ahead leave the crawler's own group without any rule. */
  lemma StarRulesStarveOwnGroup(star: seq<Directive>, own: seq<Directive>, token: string)
    requires token != "" && token != "*" && |star| >= MAX_RULES
    requires forall d | d in star :: Usable(d)
    requires own != [] && forall d | d in own :: Usable(d)
    ensures var lines := StarThenOwn(star, own, token);
            CappedPolicy(lines, token) == [] && Policy(lines, token) == own
  {
    var lines := StarThenOwn(star, own, token);
    ScanStarThenOwn(star, own, token);
    ScanIsCut(lines, token);
    StarFillsBudget(star, EntriesOf(own, true, false));
    OwnRulesOf(star, own, token);
  }

  lemma {:induction false} AllUsable(ds: seq<Directive>, own: bool, star: bool)
    requires (own || star) && forall d | d in ds :: Usable(d)
    ensures var es := EntriesOf(ds, own, star);
            |es| == |ds| && forall i | 0 <= i < |es| :: es[i] == Entry(ds[i], own, star)
  {
    if ds != [] { AllUsable(ds[1..], own, star); }
  }

  lemma {:induction false} UsableIsAll(ds: seq<Directive>)
    requires forall d | d in ds :: Usable(d)
    ensures MeaningfulRules(ds) == ds && AllBrief(ds)
  {
    if ds != [] {
      UsableIsAll(ds[1..]);
      assert Usable(ds[0]) && ds == [ds[0]] + ds[1..];
    }
  }

  // ---------------------------------------------------------------------------------------------
  // The verdict
  // ---------------------------------------------------------------------------------------------

  ghost predicate Hits(ds: seq<Directive>, i: int, norm: string -> string, path: string) {
    0 <= i < |ds| && PatternMatches(ds[i].value, norm, path)
  }

  /** Section 2.2.2: no rule matches, or an allow rule is among the longest that do. */
  ghost predicate Allowed(ds: seq<Directive>, norm: string -> string, path: string) {
    || (forall i :: !Hits(ds, i, norm, path))
    || (exists i :: Hits(ds, i, norm, path) && ds[i].allow
          && forall j | Hits(ds, j, norm, path) :: |ds[j].value| <= |ds[i].value|)
  }

  ghost predicate Fires(rules: seq<Rule>, i: int, path: string)
    requires forall r | r in rules :: r.parts != []
  {
    0 <= i < |rules| && Placed(rules[i].parts, rules[i].anchored, path)
  }

  /** The same verdict on parsed rules. */
  ghost predicate RulesAllow(rules: seq<Rule>, path: string)
    requires forall r | r in rules :: r.parts != []
  {
    || (forall i :: !Fires(rules, i, path))
    || (exists i :: Fires(rules, i, path) && rules[i].allow
          && forall j | Fires(rules, j, path) :: |rules[j].pattern| <= |rules[i].pattern|)
  }

  /** The best-rule loop: longest match wins, an allow rule wins a tie. */
  method Decide(rules: seq<Rule>, path: string) returns (allowed: bool)
    requires forall r | r in rules :: r.parts != []
    ensures allowed <==> RulesAllow(rules, path)
  {
    var best := -1;
    for k := 0 to |rules|
      invariant -1 <= best < k
      invariant best == -1 ==> forall i | 0 <= i < k :: !Fires(rules, i, path)
      invariant best >= 0 ==> Fires(rules, best, path)
      invariant best >= 0 ==> forall i | 0 <= i < k && Fires(rules, i, path) ::
        |rules[i].pattern| < |rules[best].pattern| ||
            (|rules[i].pattern| == |rules[best].pattern| && (rules[i].allow ==> rules[best].allow))
    {
      var rule := rules[k];
      var hit := Matches(rule, path);
      if hit &&
         (best == -1 || |rule.pattern| > |rules[best].pattern|
          || (|rule.pattern| == |rules[best].pattern| && rule.allow))
      {
        best := k;
      }
    }
    return best == -1 || rules[best].allow;
  }

  lemma RulesAllowIsAllowed(ds: seq<Directive>, norm: string -> string, path: string)
    ensures RulesAllow(ToRules(ds, norm), path) <==> Allowed(ds, norm, path)
  {
    var rules := ToRules(ds, norm);
    forall i ensures Fires(rules, i, path) <==> Hits(ds, i, norm, path) {
      if 0 <= i < |ds| {
        RuleMeansItsPattern(ds[i].allow, ds[i].value, norm, path);
      }
    }
    if RulesAllow(rules, path) && exists i :: Fires(rules, i, path) {
      var i :| Fires(rules, i, path) && rules[i].allow && forall j | Fires(rules, j, path) ::
          |rules[j].pattern| <= |rules[i].pattern|;
      assert Hits(ds, i, norm, path);
    }
    if Allowed(ds, norm, path) && exists i :: Hits(ds, i, norm, path) {
      var i :| Hits(ds, i, norm, path) && ds[i].allow && forall j | Hits(ds, j, norm, path) ::
          |ds[j].value| <= |ds[i].value|;
      assert Fires(rules, i, path);
    }
  }

  /** The verdict on a normalised path other than the policy file itself. */
  method CanFetchPath(raw: seq<string>, path: string, token: string, norm: string -> string) returns (allowed: bool)
    ensures allowed <==> Allowed(CappedPolicy(LexAll(raw), token), norm, path)
  {
    var rules := RulesFor(raw, token, norm);
    ghost var ds := CappedPolicy(LexAll(raw), token);
    RulesAllowIsAllowed(ds, norm, path);
    allowed := Decide(rules, path);
  }

  /** The file with lines `raw` lets the crawler fetch the normalised path and query. */
  ghost predicate MayFetch(raw: seq<string>, token: string, norm: string -> string, path: string) {
    path == "/robots.txt" || Allowed(CappedPolicy(LexAll(raw), token), norm, path)
  }

  /** `can_fetch`, from the lines of the file to the verdict on a URL: rules see its path and its query. */
  method CanFetch(raw: seq<string>, urlPath: string, urlQuery: string, token: string, norm: string -> string)
      returns (allowed: bool)
    ensures urlPath != "" && urlQuery != "" ==>
      (allowed <==> MayFetch(raw, token, norm, norm(urlPath + "?" + urlQuery)))
    ensures urlPath != "" && urlQuery == "" ==> (allowed <==> MayFetch(raw, token, norm, norm(urlPath)))
    ensures urlPath == "" && urlQuery != "" ==> (allowed <==> MayFetch(raw, token, norm, norm("/?" + urlQuery)))
    ensures urlPath == "" && urlQuery == "" ==> (allowed <==> MayFetch(raw, token, norm, norm("/")))
  {
    var text := (if urlPath == "" then "/" else urlPath) + (if urlQuery == "" then "" else "?" + urlQuery);
    assert urlPath != "" && urlQuery != "" ==> text == urlPath + "?" + urlQuery;
    assert urlPath == "" && urlQuery != "" ==> text == "/?" + urlQuery;
    assert urlQuery == "" ==> text == if urlPath == "" then "/" else urlPath;
    var path := norm(text);
    if path == "/robots.txt" {
      return true;
    }
    allowed := CanFetchPath(raw, path, token, norm);
  }

  /** A star group with one usable rule is the policy of every crawler. */
  lemma SoleRule(d: Directive, token: string)
    requires token != "*" && Usable(d)
    ensures CappedPolicy([UserAgent("*"), RuleLine(d)], token) == [d]
  {
    var g, lines := Group(["*"], [d]), [UserAgent("*"), RuleLine(d)];
    assert lines == AgentLines(g.agents) + RuleLines(g.rules);
    FoldGroup(START, g, token);
    ScanIsCut(lines, token);
    assert EntriesOf([d], token == "*", true)[1..] == [];
    assert Relevant(GroupsOf(lines), token) == [Entry(d, false, true)];
  }

  /** A pattern of slash, star, question mark: a path that starts with a slash, and a query. */
  lemma QueryGlob(path: string, query: string)
    requires path != "" && path[0] == '/'
    ensures Glob("/*?", false, path + "?" + query)
  {
    var text, p := path + "?" + query, "/*?";
    var rest, i := text[1..], |path| - 1;
    assert p[1..][0] == '*' && p[1..][1..] == "?" && "?"[1..] == [];
    assert rest[i..] == "?" + query;
    assert Glob("?"[1..], false, rest[i..][1..]);
    assert Glob(p[1..][1..], false, rest[i..]);
    assert Glob(p[1..], false, rest);
  }

  /** A file with one group for everybody, which forbids one pattern. */
  function Forbid(pattern: string): seq<string> {
    ["User-agent:" + (" " + "*"), "Disallow:" + (" " + pattern)]
  }

  lemma {:induction false} ForbidLines(d: Directive)
    requires !d.allow && Stripped(d.value) && '#' !in d.value
    ensures LexAll(Forbid(d.value)) == [UserAgent("*"), RuleLine(d)]
  {
    var raw := Forbid(d.value);
    ForbidRule(d);
    StarLine(" ");
    assert Lex(raw[0]) == UserAgent("*") && Lex(raw[1]) == RuleLine(d);
  }

  lemma {:induction false} ForbidRule(d: Directive)
    requires !d.allow && Stripped(d.value) && '#' !in d.value
    ensures Lex("Disallow:" + (" " + d.value)) == RuleLine(d)
  {
    DirectiveLine(" ", d);
  }

  /** A sole rule that matches and forbids decides. */
  lemma SoleRuleRefuses(d: Directive, norm: string -> string, path: string)
    requires !d.allow && PatternMatches(d.value, norm, path)
    ensures !Allowed([d], norm, path)
  {
    assert Hits([d], 0, norm, path);
  }

  /** A file that forbids queries keeps every crawler off every URL with one. */
  lemma {:induction false} QueriesAreRefused(path: string, query: string, token: string, norm: string -> string)
    requires path != "" && path[0] == '/' && token != "*" && norm("/*?") == "/*?"
    ensures !MayFetch(Forbid("/*?"), token, norm, path + "?" + query)
  {
    var d, text := Directive(false, "/*?"), path + "?" + query;
    ForbidLines(d);
    SoleRule(d, token);
    QueryGlob(path, query);
    SoleRuleRefuses(d, norm, text);
    assert text[|path|] == '?' && '?' !in "/robots.txt";
  }

  /** The order of the rules does not matter. */
  lemma VerdictIgnoresOrder(ds: seq<Directive>, es: seq<Directive>, norm: string -> string, path: string)
    requires multiset(ds) == multiset(es)
    ensures Allowed(ds, norm, path) <==> Allowed(es, norm, path)
  {
    if Allowed(ds, norm, path) {
      VerdictCarries(ds, es, norm, path);
    }
    if Allowed(es, norm, path) {
      VerdictCarries(es, ds, norm, path);
    }
  }

  lemma VerdictCarries(ds: seq<Directive>, es: seq<Directive>, norm: string -> string, path: string)
    requires multiset(ds) == multiset(es) && Allowed(ds, norm, path)
    ensures Allowed(es, norm, path)
  {
    forall j | Hits(es, j, norm, path)
      ensures exists i :: Hits(ds, i, norm, path) && ds[i] == es[j]
    {
      assert es[j] in multiset(ds);
      var i :| 0 <= i < |ds| && ds[i] == es[j];
      assert Hits(ds, i, norm, path);
    }
    if exists i :: Hits(ds, i, norm, path) && ds[i].allow
                   && forall j | Hits(ds, j, norm, path) :: |ds[j].value| <= |ds[i].value|
    {
      var i :| Hits(ds, i, norm, path) && ds[i].allow && forall j | Hits(ds, j, norm, path) ::
          |ds[j].value| <= |ds[i].value|;
      assert ds[i] in multiset(es);
      var k :| 0 <= k < |es| && es[k] == ds[i];
      assert Hits(es, k, norm, path);
    }
  }
}
