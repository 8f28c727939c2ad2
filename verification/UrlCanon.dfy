/**
 * `canonicalize_url` of src/apps/articles/normalizer.py: tracking parameters and the fragment go, the
 * query is sorted, scheme and host are lower case, a default port is dropped.
 */
module UrlCanon {
  import opened Prelude
  import opened PercentText
  import opened UrlParse

  datatype Pair = Pair(k: Text, v: Text)

  // ---------------------------------------------------------------------------------------------
  // Query strings
  // ---------------------------------------------------------------------------------------------

  function EncodePair(p: Pair): Text { QuotePlus(p.k) + ['='] + QuotePlus(p.v) }

  function EncodeAll(ps: seq<Pair>): (parts: seq<Text>)
    ensures |parts| == |ps| && forall i | 0 <= i < |ps| :: parts[i] == EncodePair(ps[i])
  {
    seq(|ps|, i requires 0 <= i < |ps| => EncodePair(ps[i]))
  }

  /** `urlencode`. */
  function Encode(ps: seq<Pair>): Text { Join(EncodeAll(ps), '&') }

  /** The text of a list of pairs: quoted names and values, `=` within a pair, `&` between pairs. */
  lemma EncodedForm(p: Pair, ps: seq<Pair>)
    ensures Encode([p]) == QuotePlus(p.k) + "=" + QuotePlus(p.v)
    ensures ps != [] ==> Encode([p] + ps) == QuotePlus(p.k) + "=" + QuotePlus(p.v) + "&" + Encode(ps)
  {
    assert EncodeAll([p]) == [EncodePair(p)];
    if ps != [] {
      assert EncodeAll([p] + ps) == [EncodePair(p)] + EncodeAll(ps);
      assert EncodeAll([p] + ps)[1..] == EncodeAll(ps);
    }
  }

  /** One field of `parse_qsl`: fields without `=` or with an empty value are dropped. */
  function DecodePart(part: Text): seq<Pair> {
    var name := Before(part, '=');
    if |name| + 1 < |part| then [Pair(UnquotePlus(name), UnquotePlus(part[|name| + 1..]))] else []
  }

  function DecodeParts(parts: seq<Text>): seq<Pair> {
    if parts == [] then [] else DecodePart(parts[0]) + DecodeParts(parts[1..])
  }

  /** `parse_qsl` without blank values. */
  function Decode(query: Text): seq<Pair> { DecodeParts(Split(query, '&')) }

  /** A field is cut at its first `=`; one without it, or without a value, is dropped. */
  lemma DecodedField(name: Text, value: Text)
    requires '=' !in name
    ensures DecodePart(name) == []
    ensures DecodePart(name + ['='] + value) ==
            if value == [] then [] else [Pair(UnquotePlus(name), UnquotePlus(value))]
  {
    BeforeNone(name, '=');
    BeforeFirst(name, '=', value);
    assert (name + ['='] + value)[|name| + 1..] == value;
  }

  /** Fields are separated by `&`. */
  lemma {:induction false} DecodedFields(field: Text, query: Text)
    requires '&' !in field
    ensures Decode(field) == DecodePart(field)
    ensures Decode(field + ['&'] + query) == DecodePart(field) + Decode(query)
  {
    BeforeNone(field, '&');
    assert Split(field, '&') == [field] && [field][1..] == [];
    assert DecodeParts([field]) == DecodePart(field) + DecodeParts([]);
    BeforeFirst(field, '&', query);
    assert (field + ['&'] + query)[|field| + 1..] == query;
    assert Split(field + ['&'] + query, '&') == [field] + Split(query, '&');
    assert ([field] + Split(query, '&'))[1..] == Split(query, '&');
  }

  lemma DecodeEncodedPart(p: Pair)
    requires p.v != []
    ensures DecodePart(EncodePair(p)) == [p] && '&' !in EncodePair(p)
  {
    var k, v := QuotePlus(p.k), QuotePlus(p.v);
    QuotedIsPlain(p.k, '=');
    QuotedIsPlain(p.k, '&');
    QuotedIsPlain(p.v, '&');
    BeforeFirst(k, '=', v);
    assert EncodePair(p)[|k| + 1..] == v;
    UnquoteQuote(p.k);
    UnquoteQuote(p.v);
  }

  lemma {:induction false} DecodeEncodedParts(ps: seq<Pair>)
    requires forall p | p in ps :: p.v != []
    ensures DecodeParts(EncodeAll(ps)) == ps
  {
    if ps != [] {
      DecodeEncodedPart(ps[0]);
      DecodeEncodedParts(ps[1..]);
      assert EncodeAll(ps)[1..] == EncodeAll(ps[1..]);
    }
  }

  /** Encoding loses nothing: every list of pairs with values comes back, in order. */
  lemma DecodeEncode(ps: seq<Pair>)
    requires forall p | p in ps :: p.v != []
    ensures Decode(Encode(ps)) == ps
  {
    if ps == [] {
      assert Split([], '&') == [[]];
    } else {
      forall part | part in EncodeAll(ps) ensures '&' !in part {
        var i :| 0 <= i < |ps| && part == EncodePair(ps[i]);
        DecodeEncodedPart(ps[i]);
      }
      SplitJoin(EncodeAll(ps), '&');
      DecodeEncodedParts(ps);
    }
  }

  lemma {:induction false} DecodedHaveValues(parts: seq<Text>)
    ensures forall p | p in DecodeParts(parts) :: p.v != []
  {
    if parts != [] {
      DecodedHaveValues(parts[1..]);
      var name := Before(parts[0], '=');
      if |name| + 1 < |parts[0]| {
      }
    }
  }

  // ---------------------------------------------------------------------------------------------
  // Sorting
  // ---------------------------------------------------------------------------------------------

  predicate TextLeq(a: Text, b: Text) {
    a == [] || (b != [] && (a[0] < b[0] || (a[0] == b[0] && TextLeq(a[1..], b[1..]))))
  }

  predicate PairLeq(p: Pair, q: Pair) {
    if p.k == q.k then TextLeq(p.v, q.v) else TextLeq(p.k, q.k)
  }

  lemma {:induction false} TextOrder(a: Text, b: Text)
    ensures TextLeq(a, b) || TextLeq(b, a)
    ensures TextLeq(a, b) && TextLeq(b, a) ==> a == b
  {
    if a != [] && b != [] && a[0] == b[0] {
      TextOrder(a[1..], b[1..]);
    }
  }

  lemma {:induction false} TextTrans(a: Text, b: Text, c: Text)
    requires TextLeq(a, b) && TextLeq(b, c)
    ensures TextLeq(a, c)
  {
    if a != [] && a[0] == b[0] && b[0] == c[0] {
      TextTrans(a[1..], b[1..], c[1..]);
    }
  }

  /** The texts differ first at `i`, where `a` has the smaller character. */
  predicate SmallerAt(a: Text, b: Text, i: int) { 0 <= i < |a| && i < |b| && a[..i] == b[..i] && a[i] < b[i] }

  lemma {:induction false} SmallerIsLeq(a: Text, b: Text, i: nat)
    requires SmallerAt(a, b, i)
    ensures TextLeq(a, b)
    decreases i
  {
    if i > 0 {
      assert a[..i][0] == a[0] && b[..i][0] == b[0];
      assert a[1..][..i - 1] == a[..i][1..] && b[1..][..i - 1] == b[..i][1..];
      SmallerIsLeq(a[1..], b[1..], i - 1);
    }
  }

  lemma {:induction false} PrefixIsLeq(a: Text, b: Text)
    requires a <= b
    ensures TextLeq(a, b)
  {
    if a != [] {
      PrefixIsLeq(a[1..], b[1..]);
    }
  }

  lemma {:induction false} LeqDecides(a: Text, b: Text)
    requires TextLeq(a, b)
    ensures a <= b || exists i :: SmallerAt(a, b, i)
  {
    if a != [] {
      if a[0] < b[0] {
        assert SmallerAt(a, b, 0);
      } else {
        LeqDecides(a[1..], b[1..]);
        if a[1..] <= b[1..] {
          assert a == [a[0]] + a[1..] && b == [b[0]] + b[1..];
        } else {
          var i :| SmallerAt(a[1..], b[1..], i);
          assert a[..i + 1] == [a[0]] + a[1..][..i] && b[..i + 1] == [b[0]] + b[1..][..i];
          assert SmallerAt(a, b, i + 1);
        }
      }
    }
  }

  /** Dictionary order: a text comes before its extensions, else the first difference decides. */
  lemma TextLeqIs(a: Text, b: Text)
    ensures TextLeq(a, b) <==> a <= b || exists i :: SmallerAt(a, b, i)
  {
    if TextLeq(a, b) {
      LeqDecides(a, b);
    }
    if a <= b {
      PrefixIsLeq(a, b);
    }
    if i :| SmallerAt(a, b, i) {
      SmallerIsLeq(a, b, i);
    }
  }

  lemma PairOrder(p: Pair, q: Pair)
    ensures PairLeq(p, q) || PairLeq(q, p)
    ensures PairLeq(p, q) && PairLeq(q, p) ==> p == q
  {
    TextOrder(p.k, q.k);
    TextOrder(p.v, q.v);
  }

  lemma PairTrans(p: Pair, q: Pair, r: Pair)
    requires PairLeq(p, q) && PairLeq(q, r)
    ensures PairLeq(p, r)
  {
    if p.k == q.k == r.k {
      TextTrans(p.v, q.v, r.v);
    } else if p.k != q.k && q.k != r.k {
      TextTrans(p.k, q.k, r.k);
      TextOrder(p.k, q.k);
    }
  }

  predicate Sorted(ps: seq<Pair>) {
    forall i, j | 0 <= i < j < |ps| :: PairLeq(ps[i], ps[j])
  }

  /** In a sorted query the names ascend, and so do the values of one name. */
  lemma SortedByName(ps: seq<Pair>, i: nat, j: nat)
    requires Sorted(ps) && i < j < |ps|
    ensures TextLeq(ps[i].k, ps[j].k) && (ps[i].k == ps[j].k ==> TextLeq(ps[i].v, ps[j].v))
  {
    assert PairLeq(ps[i], ps[j]);
    TextOrder(ps[i].k, ps[j].k);
  }

  function Insert(p: Pair, ps: seq<Pair>): (r: seq<Pair>)
    ensures multiset(r) == multiset(ps) + multiset{p}
  {
    if ps == [] || PairLeq(p, ps[0]) then
      assert multiset([p] + ps) == multiset(ps) + multiset{p};
      [p] + ps
    else
      assert ps == [ps[0]] + ps[1..];
      [ps[0]] + Insert(p, ps[1..])
  }

  /** `list.sort()` on pairs. */
  function Sort(ps: seq<Pair>): (r: seq<Pair>)
    ensures multiset(r) == multiset(ps)
  {
    if ps == [] then []
    else
      assert ps == [ps[0]] + ps[1..];
      Insert(ps[0], Sort(ps[1..]))
  }

  lemma {:induction false} InsertSorted(p: Pair, ps: seq<Pair>)
    requires Sorted(ps)
    ensures Sorted(Insert(p, ps))
  {
    if ps != [] {
      PairOrder(p, ps[0]);
      if PairLeq(p, ps[0]) {
        forall j | 0 <= j < |ps| ensures PairLeq(p, ps[j]) {
          if j > 0 { PairTrans(p, ps[0], ps[j]); }
        }
      } else {
        var r := Insert(p, ps[1..]);
        InsertSorted(p, ps[1..]);
        forall j | 0 <= j < |r| ensures PairLeq(ps[0], r[j]) {
          assert r[j] in multiset(ps[1..]) + multiset{p};
          assert r[j] == p || r[j] in ps[1..];
        }
      }
    }
  }

  lemma {:induction false} SortSorted(ps: seq<Pair>)
    ensures Sorted(Sort(ps))
  {
    if ps != [] {
      SortSorted(ps[1..]);
      InsertSorted(ps[0], Sort(ps[1..]));
    }
  }

  /** A multiset of pairs has one sorted listing. */
  lemma {:induction false} SortedUnique(a: seq<Pair>, b: seq<Pair>)
    requires Sorted(a) && Sorted(b) && multiset(a) == multiset(b)
    ensures a == b
  {
    assert |a| == |multiset(a)| && |b| == |multiset(b)|;
    if a != [] {
      assert a[0] in multiset(b) && b[0] in multiset(a);
      HeadsEqual(a, b);
      TailMultiset(a);
      TailMultiset(b);
      SortedUnique(a[1..], b[1..]);
    }
  }

  lemma TailMultiset(a: seq<Pair>)
    requires a != []
    ensures multiset(a[1..]) == multiset(a) - multiset{a[0]}
  {
    assert a == [a[0]] + a[1..];
  }

  lemma HeadsEqual(a: seq<Pair>, b: seq<Pair>)
    requires Sorted(a) && Sorted(b) && a != [] && b != [] && a[0] in b && b[0] in a
    ensures a[0] == b[0]
  {
    var i :| 0 <= i < |b| && b[i] == a[0];
    var j :| 0 <= j < |a| && a[j] == b[0];
    if i > 0 && j > 0 {
      PairOrder(a[0], b[0]);
    }
  }

  // ---------------------------------------------------------------------------------------------
  // Tracking parameters
  // ---------------------------------------------------------------------------------------------

  const TRACKING := {"fbclid", "gclid", "yclid", "mc_cid", "mc_eid", "ref"}

  /** The names that are dropped, in any case. */
  lemma TrackingNames(p: Pair)
    ensures Tracking(p) <==>
            || Lower(p.k) == "fbclid" || Lower(p.k) == "gclid" || Lower(p.k) == "yclid" || Lower(p.k) == "mc_cid"
            || Lower(p.k) == "mc_eid" || Lower(p.k) == "ref" || "utm_" <= Lower(p.k)
  {
  }

  predicate Tracking(p: Pair) { Lower(p.k) in TRACKING || "utm_" <= Lower(p.k) }

  /** The pairs that stay, each as often as it was there. */
  function Kept(ps: seq<Pair>): (r: seq<Pair>)
    ensures forall p :: multiset(r)[p] == if Tracking(p) then 0 else multiset(ps)[p]
  {
    if ps == [] then []
    else
      assert ps == [ps[0]] + ps[1..];
      if Tracking(ps[0]) then Kept(ps[1..]) else [ps[0]] + Kept(ps[1..])
  }

  lemma KeptMembers(ps: seq<Pair>)
    ensures forall p | p in Kept(ps) :: p in ps && !Tracking(p)
  {
    forall p | p in Kept(ps) ensures p in ps && !Tracking(p) {
      assert p in multiset(Kept(ps)) && p in multiset(ps);
    }
  }

  lemma {:induction false} KeptAll(ps: seq<Pair>)
    requires forall p | p in ps :: !Tracking(p)
    ensures Kept(ps) == ps
  {
    if ps != [] { KeptAll(ps[1..]); }
  }

  function CleanQuery(query: Text): Text { Encode(Sort(Kept(Decode(query)))) }

  /** What a clean query holds: the kept pairs, sorted. */
  lemma {:induction false} CleanQueryMeaning(query: Text)
    ensures Decode(CleanQuery(query)) == Sort(Kept(Decode(query)))
    ensures CleanQuery(CleanQuery(query)) == CleanQuery(query)
  {
    var kept := Kept(Decode(query));
    var sorted := Sort(kept);
    DecodedHaveValues(Split(query, '&'));
    KeptMembers(Decode(query));
    forall p | p in sorted ensures p in kept {
      assert p in multiset(sorted);
    }
    DecodeEncode(sorted);
    KeptAll(sorted);
    SortSorted(kept);
    SortSorted(sorted);
    SortedUnique(Sort(sorted), sorted);
  }

  /** Two queries give the same clean query exactly when they keep the same pairs, in any order. */
  lemma {:induction false} CleanQueryIsMultiset(a: Text, b: Text)
    ensures CleanQuery(a) == CleanQuery(b) <==> multiset(Kept(Decode(a))) == multiset(Kept(Decode(b)))
  {
    var ka, kb := Kept(Decode(a)), Kept(Decode(b));
    if multiset(ka) == multiset(kb) {
      SortSorted(ka);
      SortSorted(kb);
      SortedUnique(Sort(ka), Sort(kb));
    }
    CleanQueryMeaning(a);
    CleanQueryMeaning(b);
  }

  // ---------------------------------------------------------------------------------------------
  // Whole URLs
  // ---------------------------------------------------------------------------------------------

  predicate DefaultPort(scheme: Text, port: nat) {
    (scheme == "http" && port == 80) || (scheme == "https" && port == 443)
  }

  predicate ShowsPort(scheme: Text, port: Option<nat>) {
    port.Some? && port.value != 0 && !DefaultPort(scheme, port.value)
  }

  function CleanPath(path: Text): Text { if path == [] then ['/'] else path }

  /** What `urlunparse` gets to write: no user info, params or fragment. */
  function CleanLink(p: Parts): Link {
    var query := CleanQuery(p.query);
    var port := if ShowsPort(p.scheme, p.site.port) then Some(Decimal(p.site.port.value)) else None;
    Link(p.scheme, None, p.site.host, port, CleanPath(p.path), None, if query == [] then None else Some(query), None)
  }

  /** `canonicalize_url` after parsing. */
  function Canonical(p: Parts): Text { Written(CleanLink(p)) }

  /** `canonicalize_url`, on the text of a link. */
  function Canonicalize(url: Text): Option<Text> {
    var p := SplitUrl(url);
    if p.None? then None else Some(Canonical(p.value))
  }

  lemma EncodedIsPlain(ps: seq<Pair>, c: char)
    requires !Unreserved(c) && c as int < 256 && c !in "+%&="
    ensures c !in Encode(ps)
  {
    forall part | part in EncodeAll(ps) ensures c !in part {
      var i :| 0 <= i < |ps| && part == EncodePair(ps[i]);
      QuotedIsPlain(ps[i].k, c);
      QuotedIsPlain(ps[i].v, c);
    }
    JoinWithout(EncodeAll(ps), '&', c);
  }

  lemma {:induction false} JoinWithout(parts: seq<Text>, sep: char, c: char)
    requires c != sep && forall p | p in parts :: c !in p
    ensures c !in Join(parts, sep)
  {
    if |parts| > 1 {
      JoinWithout(parts[1..], sep, c);
    }
  }

  lemma CleanQueryIsPlain(query: Text)
    ensures '#' !in CleanQuery(query)
  {
    EncodedIsPlain(Sort(Kept(Decode(query))), '#');
  }

  /** The parts of a canonical URL. */
  function CleanParts(p: Parts): Parts {
    Parts(p.scheme, Site(p.site.host, if ShowsPort(p.scheme, p.site.port) then p.site.port else None),
          CleanPath(p.path), CleanQuery(p.query))
  }

  lemma {:induction false} CleanSiteIsProper(scheme: Text, site: Site)
    requires ProperHost(site.host) && (site.port.Some? ==> site.port.value <= 65535)
    ensures var port := if ShowsPort(scheme, site.port) then Some(Decimal(site.port.value)) else None;
            && ProperSite(None, site.host, port)
            && PortNumber(port) == if ShowsPort(scheme, site.port) then site.port else None
  {
    if ShowsPort(scheme, site.port) {
      NumberDecimal(site.port.value);
    }
  }

  lemma {:induction false} CleanBodyIsProper(path: Text, query: Text)
    requires ProperPath(path)
    ensures var q := CleanQuery(query);
            ProperBody(CleanPath(path), None, if q == [] then None else Some(q))
  {
    CleanQueryIsPlain(query);
  }

  lemma LowerScheme(scheme: Text)
    requires scheme == "http" || scheme == "https"
    ensures Lower(scheme) == scheme
  {
  }

  /** Parsing a canonical URL gives its own parts back. */
  lemma {:induction false} SplitCanonical(p: Parts)
    requires WellFormed(p)
    ensures SplitUrl(Canonical(p)) == Some(CleanParts(p))
  {
    CleanSiteIsProper(p.scheme, p.site);
    CleanBodyIsProper(p.path, p.query);
    LowerScheme(p.scheme);
    ReadsLink(CleanLink(p));
  }

  lemma {:induction false} CleanTwice(p: Parts)
    ensures CleanLink(CleanParts(p)) == CleanLink(p)
  {
    CleanQueryMeaning(p.query);
  }

  /** Canonical URLs are fixed points. */
  lemma {:induction false} CanonicalizeTwice(url: Text)
    ensures Canonicalize(url).Some? ==> Canonicalize(Canonicalize(url).value) == Canonicalize(url)
  {
    if SplitUrl(url).Some? {
      var p := SplitUrl(url).value;
      SplitIsWellFormed(url);
      SplitCanonical(p);
      CleanTwice(p);
    }
  }

  /** The fragment of a link never matters. */
  lemma SameWithoutFragment(url: Text, fragment: Text)
    requires '#' !in url
    ensures Canonicalize(url + (['#'] + fragment)) == Canonicalize(url)
  {
    FragmentIsDropped(url, fragment);
  }

  /**
   * The canonical URL of every link, spelled out: lower-case scheme and host, the port unless it is zero
   * or the default of the scheme, the path or a slash, and the clean query.
   */
  lemma {:induction false} CanonicalOfLink(l: Link)
    requires Proper(l)
    ensures var scheme, port := Lower(l.scheme), PortNumber(l.port);
            var query := CleanQuery(if l.query.Some? then l.query.value else []);
            var shown := port.Some? && port.value > 0
                         && !(scheme == "http" && port.value == 80) && !(scheme == "https" && port.value == 443);
            Canonicalize(Written(l)) == Some(
              scheme + "://" + Lower(l.host) + (if shown then ":" + Decimal(port.value) else "")
              + (if l.path == "" then "/" else l.path) + (if query == "" then "" else "?" + query))
  {
    ReadsLink(l);
    var p := SplitUrl(Written(l)).value;
    Spelled(CleanLink(p));
  }

  /** A link without user info, params and fragment, as one text. */
  lemma Spelled(l: Link)
    requires l.user == None && l.params == None && l.fragment == None
    ensures Written(l) == l.scheme + "://" + l.host + (if l.port.Some? then ":" + l.port.value else "")
                          + l.path + (if l.query.Some? then "?" + l.query.value else "")
  {
    var port, query := Marked(':', l.port), Marked('?', l.query);
    assert Body(l) == l.path + query;
    assert Rest(l) == l.host + port + (l.path + query);
    assert "://" == [':'] + "//";
  }

  lemma {:induction false} SameKeptPairs(p: Parts, q: Parts)
    requires WellFormed(p) && WellFormed(q) && p.(query := []) == q.(query := [])
    ensures Canonical(p) == Canonical(q) <==> multiset(Kept(Decode(p.query))) == multiset(Kept(Decode(q.query)))
  {
    CleanQueryIsMultiset(p.query, q.query);
    if Canonical(p) == Canonical(q) {
      SplitCanonical(p);
      SplitCanonical(q);
    }
  }

  /** Links alike up to the query have one canonical URL exactly when they keep the same pairs. */
  lemma {:induction false} SameKeptPairsSameUrl(a: Text, b: Text)
    ensures AlikeUpToQuery(SplitUrl(a), SplitUrl(b)) ==>
      (Canonicalize(a) == Canonicalize(b) <==>
       multiset(Kept(Decode(SplitUrl(a).value.query))) == multiset(Kept(Decode(SplitUrl(b).value.query))))
  {
    if AlikeUpToQuery(SplitUrl(a), SplitUrl(b)) {
      SplitIsWellFormed(a);
      SplitIsWellFormed(b);
      SameKeptPairs(SplitUrl(a).value, SplitUrl(b).value);
    }
  }

  /** Both links are accepted, and differ in their query at most. */
  predicate AlikeUpToQuery(p: Option<Parts>, q: Option<Parts>) {
    p.Some? && q.Some? && p.value.(query := []) == q.value.(query := [])
  }

  /** The same for links as they are written: only the pairs that stay count, not their order. */
  lemma {:induction false} SameLinksSameUrl(l: Link, query: Text)
    requires Proper(l) && l.query.Some? && '#' !in query
    ensures Canonicalize(Written(l)) == Canonicalize(Written(l.(query := Some(query)))) <==>
            multiset(Kept(Decode(l.query.value))) == multiset(Kept(Decode(query)))
  {
    var m := l.(query := Some(query));
    ReadsLink(l);
    ReadsLink(m);
    SameKeptPairsSameUrl(Written(l), Written(m));
  }
}
