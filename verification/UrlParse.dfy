/**
 * Reading links: what `urlparse` makes of an http or https link without a bracketed host, as
 * src/apps/articles/normalizer.py uses it.
 *
 * `Link` and `Written` are the text of a link by its parts; the main theorem reads every such text back.
 */
module UrlParse {
  import opened Prelude
  import opened PercentText

  // ---------------------------------------------------------------------------------------------
  // The parser
  // ---------------------------------------------------------------------------------------------

  /** The parts of a URL the canonical form depends on. */
  datatype Parts = Parts(scheme: Text, site: Site, path: Text, query: Text)

  datatype Site = Site(host: Text, port: Option<nat>)

  predicate Stop(c: char) { c == '/' || c == '?' || c == '#' }

  function BeforeStop(s: Text): (r: Text)
    ensures |r| <= |s| && r == s[..|r|] && (forall i | 0 <= i < |r| :: !Stop(r[i])) && (|r| < |s| ==> Stop(s[|r|]))
  {
    if s == [] || Stop(s[0]) then [] else [s[0]] + BeforeStop(s[1..])
  }

  /** The text after the last `c`, or all of it. */
  function AfterLast(s: Text, c: char): (r: Text)
    ensures |r| <= |s| && r == s[|s| - |r|..] && c !in r
    ensures |r| < |s| ==> s[|s| - |r| - 1] == c
    decreases |s|
  {
    if c !in s then s else AfterLast(s[|Before(s, c)| + 1..], c)
  }

  predicate AllDigits(s: Text) { forall c | c in s :: Digit(c) }

  /** Host and port; a bad port or no host is refused. */
  function ReadHostPort(hostPort: Text): Option<Site> {
    var host := Before(hostPort, ':');
    var port := if |host| < |hostPort| then hostPort[|host| + 1..] else [];
    if host == [] || !AllDigits(port) || Number(port) > 65535 then None
    else Some(Site(Lower(host), if port == [] then None else Some(Number(port))))
  }

  /** User info is dropped, brackets are refused. */
  function ReadSite(authority: Text): Option<Site> {
    if '[' in authority || ']' in authority then None else ReadHostPort(AfterLast(authority, '@'))
  }

  /** `;params` of the last path segment are not part of the path. */
  function CutParams(path: Text): Text {
    var last := AfterLast(path, '/');
    path[..|path| - |last|] + Before(last, ';')
  }

  function ReadPath(body: Text): Text { CutParams(Before(body, '?')) }

  function ReadQuery(body: Text): Text {
    var path := Before(body, '?');
    if |path| < |body| then body[|path| + 1..] else []
  }

  /** What follows the scheme and "://". */
  function SplitRest(scheme: Text, rest: Text): Option<Parts> {
    var authority := BeforeStop(rest);
    var body := Before(rest[|authority|..], '#');
    var site := ReadSite(authority);
    if site.None? then None else Some(Parts(scheme, site.value, ReadPath(body), ReadQuery(body)))
  }

  /** `urlparse` of an http(s) link; None when the link is refused before it gets here. */
  function SplitUrl(url: Text): Option<Parts> {
    var scheme := Lower(Before(url, ':'));
    if (scheme != "http" && scheme != "https") || !("://" <= url[|scheme|..]) then None
    else SplitRest(scheme, url[|scheme| + 3..])
  }

  // ---------------------------------------------------------------------------------------------
  // Links as they are written
  // ---------------------------------------------------------------------------------------------

  /** A link by its written parts; an absent part is written without its delimiter. */
  datatype Link = Link(
    scheme: Text, user: Option<Text>, host: Text, port: Option<Text>,
    path: Text, params: Option<Text>, query: Option<Text>, fragment: Option<Text>)

  function Marked(mark: char, part: Option<Text>): Text { if part.Some? then [mark] + part.value else [] }

  function WithUser(user: Option<Text>, hostPort: Text): Text {
    if user.Some? then user.value + ['@'] + hostPort else hostPort
  }

  function Authority(l: Link): Text { WithUser(l.user, l.host + Marked(':', l.port)) }

  function Body(l: Link): Text { (l.path + Marked(';', l.params)) + Marked('?', l.query) }

  function Rest(l: Link): Text { Authority(l) + (Body(l) + Marked('#', l.fragment)) }

  function WithScheme(scheme: Text, rest: Text): Text { scheme + ([':'] + ("//" + rest)) }

  /** The text of the link. */
  function Written(l: Link): Text { WithScheme(l.scheme, Rest(l)) }

  // No part holds a delimiter that would end it.

  predicate NoStop(s: Text) { '/' !in s && '?' !in s && '#' !in s }

  predicate Unbracketed(s: Text) { '[' !in s && ']' !in s }

  predicate ProperHost(host: Text) { host != [] && NoStop(host) && Unbracketed(host) && '@' !in host && ':' !in host }

  predicate ProperPort(port: Text) { AllDigits(port) && Number(port) <= 65535 }

  /** The last segment has no `;`: each one has a slash after it. */
  predicate NoParams(path: Text) { forall i | 0 <= i < |path| && path[i] == ';' :: '/' in path[i..] }

  predicate ProperPath(path: Text) {
    (path == [] || path[0] == '/') && '?' !in path && '#' !in path && NoParams(path)
  }

  predicate ProperParams(params: Text) { NoStop(params) }

  predicate ProperSite(user: Option<Text>, host: Text, port: Option<Text>) {
    && (user.Some? ==> NoStop(user.value) && Unbracketed(user.value))
    && ProperHost(host) && (port.Some? ==> ProperPort(port.value))
  }

  predicate ProperBody(path: Text, params: Option<Text>, query: Option<Text>) {
    && ProperPath(path) && (params.Some? ==> path != [] && ProperParams(params.value))
    && (query.Some? ==> '#' !in query.value)
  }

  predicate Proper(l: Link) {
    && (Lower(l.scheme) == "http" || Lower(l.scheme) == "https")
    && ProperSite(l.user, l.host, l.port) && ProperBody(l.path, l.params, l.query)
  }

  /** The number of a port that is written out. */
  function PortNumber(port: Option<Text>): Option<nat>
    requires port.Some? ==> AllDigits(port.value)
  {
    if port.None? || port.value == [] then None else Some(Number(port.value))
  }

  // ---------------------------------------------------------------------------------------------
  // They are read back
  // ---------------------------------------------------------------------------------------------

  lemma BeforeMark(a: Text, mark: char, part: Option<Text>)
    requires mark !in a
    ensures Before(a + Marked(mark, part), mark) == a
  {
    if part.Some? {
      assert a + Marked(mark, part) == a + [mark] + part.value;
      BeforeFirst(a, mark, part.value);
    } else {
      assert a + Marked(mark, part) == a;
      BeforeNone(a, mark);
    }
  }

  lemma AfterMark(head: Text, c: char, tail: Text)
    requires c !in tail
    ensures AfterLast(head + [c] + tail, c) == tail
  {
    var s := head + [c] + tail;
    var r := AfterLast(s, c);
    assert s[|head|] == c && forall i | |head| < i < |s| :: s[i] in tail;
    assert forall i | |s| - |r| <= i < |s| :: s[i] in r;
    assert |r| == |tail|;
  }

  lemma AfterNone(s: Text, c: char)
    requires c !in s
    ensures AfterLast(s, c) == s
  {
    assert forall i | 0 <= i < |s| :: s[i] in s;
  }

  lemma ReadsHostPort(host: Text, port: Option<Text>)
    requires ProperHost(host) && (port.Some? ==> ProperPort(port.value))
    ensures ReadHostPort(host + Marked(':', port)) == Some(Site(Lower(host), PortNumber(port)))
  {
    BeforeMark(host, ':', port);
    if port.Some? {
      assert (host + Marked(':', port))[|host| + 1..] == port.value;
    }
  }

  lemma PortIsPlain(port: Option<Text>, c: char)
    requires port.Some? ==> AllDigits(port.value)
    requires c != ':' && !Digit(c)
    ensures c !in Marked(':', port)
  {
  }

  lemma HostPortIsPlain(host: Text, port: Option<Text>)
    requires ProperHost(host) && (port.Some? ==> AllDigits(port.value))
    ensures var hp := host + Marked(':', port); NoStop(hp) && Unbracketed(hp) && '@' !in hp
  {
    PortIsPlain(port, '/');
    PortIsPlain(port, '?');
    PortIsPlain(port, '#');
    PortIsPlain(port, '[');
    PortIsPlain(port, ']');
    PortIsPlain(port, '@');
  }

  lemma UserIsDropped(user: Option<Text>, hp: Text)
    requires '@' !in hp
    ensures AfterLast(WithUser(user, hp), '@') == hp
  {
    if user.Some? {
      AfterMark(user.value, '@', hp);
    } else {
      AfterNone(hp, '@');
    }
  }

  lemma {:induction false} ReadsSite(user: Option<Text>, host: Text, port: Option<Text>)
    requires ProperSite(user, host, port)
    ensures var a := WithUser(user, host + Marked(':', port));
            NoStop(a) && ReadSite(a) == Some(Site(Lower(host), PortNumber(port)))
  {
    var hp := host + Marked(':', port);
    HostPortIsPlain(host, port);
    UserIsDropped(user, hp);
    ReadsHostPort(host, port);
    assert NoStop(WithUser(user, hp)) && Unbracketed(WithUser(user, hp));
  }

  lemma {:induction false} LastWithoutParams(path: Text)
    requires NoParams(path)
    ensures ';' !in AfterLast(path, '/')
  {
    var last := AfterLast(path, '/');
    var n := |path| - |last|;
    forall k | 0 <= k < |last| ensures last[k] != ';' {
      assert last[k] == path[n + k] && path[n + k..] == last[k..];
      assert forall c | c in last[k..] :: c in last;
    }
  }

  lemma {:induction false} CutsNothing(path: Text)
    requires NoParams(path)
    ensures CutParams(path) == path
  {
    var last := AfterLast(path, '/');
    LastWithoutParams(path);
    BeforeNone(last, ';');
    Rejoin(path, last);
  }

  lemma Rejoin(s: Text, last: Text)
    requires |last| <= |s| && last == s[|s| - |last|..]
    ensures s[..|s| - |last|] + last == s
  {
  }

  /** A path that starts with a slash has one before its last segment. */
  lemma LastSegment(path: Text) returns (head: Text, last: Text)
    requires path != [] && path[0] == '/'
    ensures path == head + ['/'] + last && '/' !in last && last == AfterLast(path, '/')
  {
    last := AfterLast(path, '/');
    assert path[0] in path;
    head := path[..|path| - |last| - 1];
  }

  /** Cutting at the first semicolon after the last slash. */
  lemma {:induction false} CutAt(head: Text, last: Text, params: Text)
    requires '/' !in last && ';' !in last && '/' !in params
    ensures CutParams(head + ['/'] + (last + [';'] + params)) == head + ['/'] + last
  {
    var more := last + [';'] + params;
    var text := head + ['/'] + more;
    AfterMark(head, '/', more);
    BeforeFirst(last, ';', params);
    assert text[..|text| - |more|] == head + ['/'];
  }

  lemma Regroup(head: Text, last: Text, params: Text)
    ensures (head + ['/'] + last) + ([';'] + params) == head + ['/'] + (last + [';'] + params)
  {
  }

  lemma {:induction false} CutsParams(path: Text, params: Text)
    requires path != [] && path[0] == '/' && NoParams(path) && '/' !in params
    ensures CutParams(path + ([';'] + params)) == path
  {
    LastWithoutParams(path);
    var head, last := LastSegment(path);
    Regroup(head, last, params);
    CutAt(head, last, params);
  }

  lemma {:induction false} ReadsPath(path: Text, params: Option<Text>)
    requires ProperPath(path) && (params.Some? ==> path != [] && ProperParams(params.value))
    ensures var text := path + Marked(';', params);
            CutParams(text) == path && '?' !in text && '#' !in text && (text == [] || text[0] == '/')
  {
    if params.Some? {
      CutsParams(path, params.value);
    } else {
      assert path + Marked(';', params) == path;
      CutsNothing(path);
    }
  }

  lemma {:induction false} ReadsQuery(text: Text, query: Option<Text>)
    requires '?' !in text
    ensures var body := text + Marked('?', query);
            ReadPath(body) == CutParams(text) && ReadQuery(body) == if query.Some? then query.value else []
  {
    BeforeMark(text, '?', query);
    if query.Some? {
      assert (text + Marked('?', query))[|text| + 1..] == query.value;
    } else {
      assert text + Marked('?', query) == text;
    }
  }

  lemma {:induction false} ReadsBody(path: Text, params: Option<Text>, query: Option<Text>)
    requires ProperBody(path, params, query)
    ensures var body := (path + Marked(';', params)) + Marked('?', query);
            && '#' !in body && (body == [] || body[0] == '/' || body[0] == '?')
            && ReadPath(body) == path && ReadQuery(body) == if query.Some? then query.value else []
  {
    ReadsPath(path, params);
    ReadsQuery(path + Marked(';', params), query);
  }

  lemma {:induction false} BeforeStopFirst(a: Text, b: Text)
    requires NoStop(a) && (b == [] || Stop(b[0]))
    ensures BeforeStop(a + b) == a
  {
    if a == [] {
      assert a + b == b;
    } else {
      assert a[0] in a && (a + b)[1..] == a[1..] + b;
      BeforeStopFirst(a[1..], b);
    }
  }

  lemma {:induction false} ReadsRest(scheme: Text, a: Text, body: Text, fragment: Option<Text>)
    requires NoStop(a) && '#' !in body && (body == [] || body[0] == '/' || body[0] == '?')
    ensures SplitRest(scheme, a + (body + Marked('#', fragment))) ==
            if ReadSite(a).None? then None
            else Some(Parts(scheme, ReadSite(a).value, ReadPath(body), ReadQuery(body)))
  {
    var tail := body + Marked('#', fragment);
    BeforeStopFirst(a, tail);
    assert (a + tail)[|a|..] == tail;
    BeforeMark(body, '#', fragment);
  }

  lemma SchemeText(scheme: Text, rest: Text)
    requires ':' !in scheme
    ensures var url := WithScheme(scheme, rest);
            Before(url, ':') == scheme && "://" <= url[|scheme|..] && url[|scheme| + 3..] == rest
  {
    var url := WithScheme(scheme, rest);
    assert url == scheme + [':'] + ("//" + rest);
    BeforeFirst(scheme, ':', "//" + rest);
    assert url[|scheme|..] == "://" + rest;
  }

  lemma LowerKeepsColon(s: Text)
    requires ':' !in Lower(s)
    ensures ':' !in s
  {
    forall i | 0 <= i < |s| ensures s[i] != ':' {
      assert Lower(s)[i] in Lower(s) && Lower(s)[i] == LowerChar(s[i]);
    }
  }

  lemma {:induction false} ReadsScheme(scheme: Text, rest: Text)
    requires Lower(scheme) == "http" || Lower(scheme) == "https"
    ensures SplitUrl(WithScheme(scheme, rest)) == SplitRest(Lower(scheme), rest)
  {
    LowerKeepsColon(scheme);
    SchemeText(scheme, rest);
  }

  /** A written link is read part by part: user info, params and fragment are gone, case of the host too. */
  lemma {:induction false} ReadsLink(l: Link)
    requires Proper(l)
    ensures SplitUrl(Written(l)) ==
            Some(Parts(Lower(l.scheme), Site(Lower(l.host), PortNumber(l.port)), l.path,
                       if l.query.Some? then l.query.value else []))
  {
    ReadsScheme(l.scheme, Rest(l));
    ReadsSite(l.user, l.host, l.port);
    ReadsBody(l.path, l.params, l.query);
    ReadsRest(Lower(l.scheme), Authority(l), Body(l), l.fragment);
  }

  // ---------------------------------------------------------------------------------------------
  // Fragments
  // ---------------------------------------------------------------------------------------------

  lemma {:induction false} BeforeStopHash(rest: Text, more: Text)
    requires more != [] && more[0] == '#'
    ensures BeforeStop(rest + more) == BeforeStop(rest)
  {
    if rest == [] {
      assert rest + more == more;
    } else if !Stop(rest[0]) {
      assert (rest + more)[1..] == rest[1..] + more;
      BeforeStopHash(rest[1..], more);
    }
  }

  lemma {:induction false} BeforeKeeps(s: Text, c: char, more: Text)
    requires c in s
    ensures Before(s + more, c) == Before(s, c)
  {
    if s[0] != c {
      assert (s + more)[1..] == s[1..] + more;
      BeforeKeeps(s[1..], c, more);
    }
  }

  lemma {:induction false} RestWithoutFragment(scheme: Text, rest: Text, fragment: Text)
    requires '#' !in rest
    ensures SplitRest(scheme, rest + (['#'] + fragment)) == SplitRest(scheme, rest)
  {
    var more, n := ['#'] + fragment, |BeforeStop(rest)|;
    BeforeStopHash(rest, more);
    var tail := rest[n..];
    assert (rest + more)[n..] == tail + ['#'] + fragment;
    assert '#' !in tail by {
      assert forall c | c in tail :: c in rest;
    }
    BeforeFirst(tail, '#', fragment);
    BeforeNone(tail, '#');
  }

  /** Cutting off the first `n` characters and "://" commutes with adding a fragment. */
  lemma CutBeforeFragment(url: Text, n: nat, fragment: Text)
    requires '#' !in url && n <= |url|
    ensures var long := url + (['#'] + fragment);
            && ("://" <= long[n..] <==> "://" <= url[n..])
            && ("://" <= url[n..] ==> n + 3 <= |url| && long[n + 3..] == url[n + 3..] + (['#'] + fragment))
  {
    var long := url + (['#'] + fragment);
    assert long[n..] == url[n..] + (['#'] + fragment);
    assert long[n..][|url| - n] == '#';
    if "://" <= long[n..] {
      assert '#' !in "://";
      assert |url| - n >= 3 by {
        assert forall i | 0 <= i < 3 :: long[n..][i] == "://"[i] && "://"[i] in "://";
      }
      assert url[n..][..3] == long[n..][..3];
    }
  }

  /** Without a colon before the fragment there is no scheme. */
  lemma {:induction false} NoScheme(url: Text, fragment: Text)
    requires '#' !in url && ':' !in url
    ensures SplitUrl(url) == None && SplitUrl(url + (['#'] + fragment)) == None
  {
    var long := url + (['#'] + fragment);
    BeforeNone(url, ':');
    var name := Before(long, ':');
    assert |name| > |url| by {
      assert forall i | 0 <= i <= |url| :: long[i] != ':';
    }
    assert Lower(name)[|url|] == '#';
    assert '#' !in "http" && '#' !in "https";
  }

  /** The fragment of a link never matters. */
  lemma {:induction false} FragmentIsDropped(url: Text, fragment: Text)
    requires '#' !in url
    ensures SplitUrl(url + (['#'] + fragment)) == SplitUrl(url)
  {
    if ':' in url {
      var n := |Before(url, ':')|;
      BeforeKeeps(url, ':', ['#'] + fragment);
      CutBeforeFragment(url, n, fragment);
      if "://" <= url[n..] {
        RestWithoutFragment(Lower(Before(url, ':')), url[n + 3..], fragment);
      }
    } else {
      NoScheme(url, fragment);
    }
  }

  // ---------------------------------------------------------------------------------------------
  // Whatever is read is proper
  // ---------------------------------------------------------------------------------------------

  predicate WellFormed(p: Parts) {
    && (p.scheme == "http" || p.scheme == "https")
    && ProperHost(p.site.host) && Lower(p.site.host) == p.site.host
    && (p.site.port.Some? ==> p.site.port.value <= 65535) && ProperPath(p.path) && '#' !in p.query
  }

  lemma LowerWithout(s: Text, c: char)
    requires c !in s && !('a' <= c <= 'z')
    ensures c !in Lower(s)
  {
    assert forall i | 0 <= i < |s| :: s[i] in s;
  }

  lemma LowerProperHost(host: Text)
    requires ProperHost(host)
    ensures ProperHost(Lower(host)) && Lower(Lower(host)) == Lower(host)
  {
    LowerWithout(host, '/');
    LowerWithout(host, '?');
    LowerWithout(host, '#');
    LowerWithout(host, '[');
    LowerWithout(host, ']');
    LowerWithout(host, '@');
    LowerWithout(host, ':');
  }

  lemma {:induction false} SiteIsProper(a: Text)
    requires NoStop(a)
    ensures var s := ReadSite(a);
            s.Some? ==> && ProperHost(s.value.host) && Lower(s.value.host) == s.value.host
                        && (s.value.port.Some? ==> s.value.port.value <= 65535)
  {
    var hp := AfterLast(a, '@');
    var host := Before(hp, ':');
    assert forall c | c in hp :: c in a;
    assert forall c | c in host :: c in hp;
    if ReadSite(a).Some? {
      assert ProperHost(host);
      LowerProperHost(host);
    }
  }

  lemma {:induction false} CutPath(head: Text, last: Text)
    requires '/' !in last
    ensures CutParams(head + ['/'] + last) == head + ['/'] + Before(last, ';')
  {
    var path := head + ['/'] + last;
    AfterMark(head, '/', last);
    assert path[..|path| - |last|] == head + ['/'];
  }

  lemma CutHasNoParams(head: Text, cut: Text)
    requires ';' !in cut
    ensures NoParams(head + ['/'] + cut)
  {
    var path := head + ['/'] + cut;
    assert forall k | |head| < k < |path| :: path[k] in cut;
    forall i | 0 <= i < |path| && path[i] == ';' ensures '/' in path[i..] {
      assert i < |head|;
      assert path[i..][|head| - i] == '/';
    }
  }

  lemma CutWithout(path: Text, c: char)
    requires c !in path
    ensures c !in CutParams(path)
  {
    var last := AfterLast(path, '/');
    var cut := Before(last, ';');
    assert forall x | x in cut :: x in last;
    assert forall x | x in last :: x in path;
  }

  lemma {:induction false} CutIsProper(path: Text)
    requires (path == [] || path[0] == '/') && '?' !in path && '#' !in path
    ensures ProperPath(CutParams(path))
  {
    CutWithout(path, '?');
    CutWithout(path, '#');
    if path == [] {
      assert CutParams(path) == [];
    } else {
      var head, last := LastSegment(path);
      CutPath(head, last);
      CutHasNoParams(head, Before(last, ';'));
    }
  }

  lemma {:induction false} BodyIsProper(body: Text)
    requires (body == [] || body[0] == '/' || body[0] == '?') && '#' !in body
    ensures ProperPath(ReadPath(body)) && '#' !in ReadQuery(body)
  {
    var path := Before(body, '?');
    assert forall c | c in path :: c in body;
    assert path == [] || path[0] == '/';
    CutIsProper(path);
  }

  lemma {:induction false} RestIsWellFormed(scheme: Text, rest: Text)
    requires (scheme == "http" || scheme == "https") && SplitRest(scheme, rest).Some?
    ensures WellFormed(SplitRest(scheme, rest).value)
  {
    var a := BeforeStop(rest);
    var tail := rest[|a|..];
    assert NoStop(a) by {
      assert forall i | 0 <= i < |a| :: !Stop(a[i]);
    }
    SiteIsProper(a);
    BodyIsProper(Before(tail, '#'));
  }

  lemma {:induction false} SplitIsWellFormed(url: Text)
    ensures SplitUrl(url).Some? ==> WellFormed(SplitUrl(url).value)
  {
    if SplitUrl(url).Some? {
      var scheme := Lower(Before(url, ':'));
      RestIsWellFormed(scheme, url[|scheme| + 3..]);
    }
  }
}
