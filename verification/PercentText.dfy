/**
 * Percent-encoding as used by src/apps/articles/normalizer.py and src/apps/subscriptions/targets.py.
 * Text is the UTF-8 form of the strings the program handles, one character per byte.
 */
module PercentText {
  import opened Prelude

  type Text = string

  predicate IsHex(c: char) { '0' <= c <= '9' || 'A' <= c <= 'F' || 'a' <= c <= 'f' }

  function HexValue(c: char): (v: nat)
    requires IsHex(c)
    ensures v < 16
  {
    if c <= '9' then c as int - '0' as int
    else if c <= 'F' then c as int - 'A' as int + 10
    else c as int - 'a' as int + 10
  }

  function HexDigit(d: nat): (c: char)
    requires d < 16
    ensures IsHex(c) && HexValue(c) == d && Unreserved(c)
  {
    if d < 10 then (d + '0' as int) as char else (d - 10 + 'A' as int) as char
  }

  /** Does a valid `%XX` escape start here? */
  predicate Escape(s: Text) { |s| >= 3 && s[0] == '%' && IsHex(s[1]) && IsHex(s[2]) }

  function Escaped(s: Text): char
    requires Escape(s)
  {
    (HexValue(s[1]) * 16 + HexValue(s[2])) as char
  }

  /** Escapes may be written in either case. */
  lemma EscapeCase(rest: Text)
    ensures Escape("%2f" + rest) && Escape("%2F" + rest)
    ensures Escaped("%2f" + rest) == '/' && Escaped("%2F" + rest) == '/'
    ensures !Escape("%2g" + rest) && !Escape("2f" + rest)
  {
  }

  /** `unquote`: valid escapes become their byte, everything else stays. */
  function Unquote(s: Text): (r: Text)
    ensures |r| <= |s|
    decreases |s|
  {
    if s == [] then []
    else if Escape(s) then [Escaped(s)] + Unquote(s[3..])
    else [s[0]] + Unquote(s[1..])
  }

  predicate HasEscape(s: Text) { exists i | 0 <= i < |s| :: Escape(s[i..]) }

  lemma {:induction false} UnquoteWithoutEscape(s: Text)
    requires !HasEscape(s)
    ensures Unquote(s) == s
    decreases |s|
  {
    if s != [] {
      assert s[0..] == s;
      assert forall i | 0 <= i < |s| - 1 :: s[1..][i..] == s[i + 1..];
      UnquoteWithoutEscape(s[1..]);
    }
  }

  lemma {:induction false} UnquoteShrinks(s: Text, i: nat)
    requires i < |s| && Escape(s[i..])
    ensures |Unquote(s)| < |s|
    decreases |s|
  {
    if !Escape(s) {
      assert i > 0 by {
        assert s[0..] == s;
      }
      assert s[1..][i - 1..] == s[i..];
      UnquoteShrinks(s[1..], i - 1);
    }
  }

  // ---------------------------------------------------------------------------------------------
  // Form encoding
  // ---------------------------------------------------------------------------------------------

  predicate Unreserved(c: char) {
    'a' <= c <= 'z' || 'A' <= c <= 'Z' || '0' <= c <= '9' || c in "_.-~"
  }

  function QuoteByte(c: char): (r: Text)
    ensures r != []
  {
    if Unreserved(c) || c as int >= 256 then [c]
    else if c == ' ' then ['+']
    else ['%', HexDigit(c as int / 16), HexDigit(c as int % 16)]
  }

  /** `quote_plus`. */
  function QuotePlus(s: Text): (r: Text)
    ensures s != [] ==> r != []
  {
    if s == [] then [] else QuoteByte(s[0]) + QuotePlus(s[1..])
  }

  /** Which characters stay as they are, and how the others are written. */
  lemma QuotedForm(c: char)
    requires c as int < 256
    ensures QuoteByte(c) == [c] <==>
            'a' <= c <= 'z' || 'A' <= c <= 'Z' || '0' <= c <= '9' || c == '_' || c == '.' || c == '-' || c == '~'
    ensures QuoteByte(' ') == "+"
    ensures QuoteByte(c) != [c] && c != ' ' ==>
            var q := QuoteByte(c);
            && |q| == 3 && q[0] == '%' && UpperHex(q[1]) && UpperHex(q[2])
            && c as int == 16 * HexValue(q[1]) + HexValue(q[2])
  {
  }

  predicate UpperHex(c: char) { '0' <= c <= '9' || 'A' <= c <= 'F' }

  /** Texts are quoted character by character. */
  lemma {:induction false} QuoteConcat(a: Text, b: Text)
    ensures QuotePlus(a + b) == QuotePlus(a) + QuotePlus(b)
  {
    if a == [] {
      assert a + b == b;
    } else {
      assert (a + b)[1..] == a[1..] + b;
      QuoteConcat(a[1..], b);
    }
  }

  /** No delimiter survives quoting. */
  lemma {:induction false} QuotedIsPlain(s: Text, c: char)
    requires !Unreserved(c) && c as int < 256 && c != '+' && c != '%'
    ensures c !in QuotePlus(s)
  {
    if s != [] {
      QuotedIsPlain(s[1..], c);
      assert c !in QuoteByte(s[0]);
    }
  }

  function Spaces(s: Text): (r: Text)
    ensures |r| == |s| && forall i | 0 <= i < |s| :: r[i] == if s[i] == '+' then ' ' else s[i]
  {
    seq(|s|, i requires 0 <= i < |s| => if s[i] == '+' then ' ' else s[i])
  }

  function UnquotePlus(s: Text): Text { Unquote(Spaces(s)) }

  lemma SpacesConcat(a: Text, b: Text)
    ensures Spaces(a + b) == Spaces(a) + Spaces(b)
  {
  }

  lemma {:induction false} UnquoteQuote(s: Text)
    ensures UnquotePlus(QuotePlus(s)) == s
  {
    if s != [] {
      UnquoteQuote(s[1..]);
      SpacesConcat(QuoteByte(s[0]), QuotePlus(s[1..]));
    }
  }

  // ---------------------------------------------------------------------------------------------
  // Separated lists
  // ---------------------------------------------------------------------------------------------

  function Split(s: Text, sep: char): (parts: seq<Text>)
    ensures parts != [] && forall p | p in parts :: sep !in p
    decreases |s|
  {
    var head := Before(s, sep);
    if |head| == |s| then [s] else [head] + Split(s[|head| + 1..], sep)
  }

  function Join(parts: seq<Text>, sep: char): Text {
    if parts == [] then [] else if |parts| == 1 then parts[0] else parts[0] + [sep] + Join(parts[1..], sep)
  }

  lemma {:induction false} SplitJoin(parts: seq<Text>, sep: char)
    requires parts != [] && forall p | p in parts :: sep !in p
    ensures Split(Join(parts, sep), sep) == parts
    decreases |parts|
  {
    if |parts| == 1 {
      BeforeNone(parts[0], sep);
    } else {
      var rest := Join(parts[1..], sep);
      BeforeFirst(parts[0], sep, rest);
      assert (parts[0] + [sep] + rest)[|parts[0]| + 1..] == rest;
      SplitJoin(parts[1..], sep);
    }
  }

  lemma {:induction false} JoinCons(head: Text, parts: seq<Text>, sep: char)
    requires parts != []
    ensures Join([head] + parts, sep) == head + [sep] + Join(parts, sep)
  {
    assert ([head] + parts)[1..] == parts;
  }

  lemma CutApart(s: Text, head: Text, sep: char)
    requires |head| < |s| && head == s[..|head|] && s[|head|] == sep
    ensures s == head + [sep] + s[|head| + 1..]
  {
  }

  lemma {:induction false} JoinSplit(s: Text, sep: char)
    ensures Join(Split(s, sep), sep) == s
    decreases |s|
  {
    var head := Before(s, sep);
    if |head| < |s| {
      var rest := s[|head| + 1..];
      JoinSplit(rest, sep);
      JoinCons(head, Split(rest, sep), sep);
      CutApart(s, head, sep);
    }
  }
}
