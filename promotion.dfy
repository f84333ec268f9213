/**
 * The promotion-strategy list of index.tsx (displayResult): the text is split
 * on any of the bullet, hyphen, asterisk and newline characters, fragments
 * that are only whitespace are dropped, and the rest are trimmed.
 */
module Promotion {

  const Bullet: char := '\U{2022}'

  /** The split points of the regular expression /•|-|\*|\n/. */
  const DelimiterChars: set<char> := {Bullet, '-', '*', '\n'}

  /**
   * The characters that trim removes: the JavaScript white space (tab,
   * vertical tab, form feed, the byte-order mark and every space separator)
   * and line terminators (line feed, carriage return, line and paragraph
   * separator).
   */
  const WhitespaceChars: set<char> := {
    '\t', '\U{000B}', '\U{000C}', '\U{FEFF}',
    ' ', '\U{00A0}', '\U{1680}', '\U{2000}', '\U{2001}', '\U{2002}', '\U{2003}',
    '\U{2004}', '\U{2005}', '\U{2006}', '\U{2007}', '\U{2008}', '\U{2009}', '\U{200A}',
    '\U{202F}', '\U{205F}', '\U{3000}',
    '\n', '\r', '\U{2028}', '\U{2029}'}

  predicate IsDelimiter(c: char) {
    c in DelimiterChars
  }

  predicate IsWhitespace(c: char) {
    c in WhitespaceChars
  }

  predicate NoDelimiter(s: string) {
    forall i :: 0 <= i < |s| ==> !IsDelimiter(s[i])
  }

  predicate AllWhitespace(s: string) {
    forall i :: 0 <= i < |s| ==> IsWhitespace(s[i])
  }

  /** The delimiter characters of `s`, left to right. */
  function Delimiters(s: string): (ds: string)
    ensures |ds| <= |s|
  {
    if s == [] then []
    else if IsDelimiter(s[0]) then [s[0]] + Delimiters(s[1..])
    else Delimiters(s[1..])
  }

  /**
   * String.prototype.split with the delimiter pattern: the fragments between
   * delimiters, including empty ones, so there is one more fragment than
   * there are delimiters.
   */
  function Split(s: string): (parts: seq<string>)
    ensures |parts| == |Delimiters(s)| + 1
  {
    if s == [] then [""]
    else if IsDelimiter(s[0]) then [""] + Split(s[1..])
    else
      var rest := Split(s[1..]);
      [[s[0]] + rest[0]] + rest[1..]
  }

  /** The inverse of Split: the fragments with the delimiters put back between them. */
  function Rejoin(parts: seq<string>, ds: string): string
    requires |parts| == |ds| + 1
  {
    if ds == [] then parts[0]
    else parts[0] + [ds[0]] + Rejoin(parts[1..], ds[1..])
  }

  /** The first index at or after i that holds no whitespace, or the length when there is none. */
  function TrimFrom(s: string, i: nat): (start: nat)
    requires i <= |s|
    ensures i <= start <= |s|
    decreases |s| - i
  {
    if i < |s| && IsWhitespace(s[i]) then TrimFrom(s, i + 1) else i
  }

  /** The end left once the whitespace before index j is dropped, never going below lo. */
  function TrimTo(s: string, lo: nat, j: nat): (end: nat)
    requires lo <= j <= |s|
    ensures lo <= end <= j
  {
    if lo < j && IsWhitespace(s[j - 1]) then TrimTo(s, lo, j - 1) else j
  }

  /** String.prototype.trim over the whitespace predicate above: leading, then trailing whitespace removed. */
  function Trim(s: string): (t: string)
    ensures |t| <= |s|
    ensures Trimmed(t)
  {
    var start := TrimFrom(s, 0);
    TrimFromSkipsWhitespace(s, 0);
    TrimToDropsWhitespace(s, start, |s|);
    s[start..TrimTo(s, start, |s|)]
  }

  /** The filter step: keep the fragments whose trimmed form is not empty. */
  function NonBlank(parts: seq<string>): (kept: seq<string>)
    ensures |kept| <= |parts|
  {
    if parts == [] then []
    else (if Trim(parts[0]) != "" then [parts[0]] else []) + NonBlank(parts[1..])
  }

  /** The forEach step: every kept fragment trimmed, one item per fragment. */
  function TrimEach(parts: seq<string>): (trimmed: seq<string>)
    ensures |trimmed| == |parts|
  {
    seq(|parts|, i requires 0 <= i < |parts| => Trim(parts[i]))
  }

  /** Trimming one more part adds its trimmed form at the end. */
  lemma TrimEachSnoc(parts: seq<string>, p: string)
    ensures TrimEach(parts + [p]) == TrimEach(parts) + [Trim(p)]
  {
    var l, r := TrimEach(parts + [p]), TrimEach(parts) + [Trim(p)];
    forall i | 0 <= i < |l| ensures l[i] == r[i] {
      if i < |parts| {
        assert (parts + [p])[i] == parts[i];
      }
    }
  }

  /** The list items rendered for a promotion strategy text. */
  function Items(s: string): (items: seq<string>)
    ensures |items| <= |Delimiters(s)| + 1
  {
    TrimEach(NonBlank(Split(s)))
  }

  /** A trimmed string has no whitespace at either end. */
  predicate Trimmed(s: string) {
    s == [] || (!IsWhitespace(s[0]) && !IsWhitespace(s[|s| - 1]))
  }

  // ---------------------------------------------------------------- trim

  /** Everything TrimFrom skips is whitespace, and it stops on a character that is not. */
  lemma {:induction false} TrimFromSkipsWhitespace(s: string, i: nat)
    requires i <= |s|
    ensures forall k :: i <= k < TrimFrom(s, i) ==> IsWhitespace(s[k])
    ensures TrimFrom(s, i) < |s| ==> !IsWhitespace(s[TrimFrom(s, i)])
    decreases |s| - i
  {
    if i < |s| && IsWhitespace(s[i]) {
      TrimFromSkipsWhitespace(s, i + 1);
    }
  }

  /** Everything TrimTo drops is whitespace, and it stops after a character that is not, or at lo. */
  lemma {:induction false} TrimToDropsWhitespace(s: string, lo: nat, j: nat)
    requires lo <= j <= |s|
    ensures forall k :: TrimTo(s, lo, j) <= k < j ==> IsWhitespace(s[k])
    ensures lo < TrimTo(s, lo, j) ==> !IsWhitespace(s[TrimTo(s, lo, j) - 1])
  {
    if lo < j && IsWhitespace(s[j - 1]) {
      TrimToDropsWhitespace(s, lo, j - 1);
    }
  }

  /**
   * Trim removes whitespace from both ends and nothing else: the result is a
   * piece of the input, has no whitespace at either end, and what was cut
   * off is all whitespace.
   */
  lemma TrimCharacterized(s: string)
    ensures var t := Trim(s); var i := TrimFrom(s, 0);
      && i + |t| <= |s|
      && (forall k :: 0 <= k < |t| ==> t[k] == s[i + k])
      && (forall k :: 0 <= k < i ==> IsWhitespace(s[k]))
      && (forall k :: i + |t| <= k < |s| ==> IsWhitespace(s[k]))
      && Trimmed(t)
  {
    var i := TrimFrom(s, 0);
    var e := TrimTo(s, i, |s|);
    TrimFromSkipsWhitespace(s, 0);
    TrimToDropsWhitespace(s, i, |s|);
    var t := Trim(s);
    assert t == s[i..e];
    if t != [] {
      assert t[0] == s[i] && t[|t| - 1] == s[e - 1];
    }
  }

  /** Trimming leaves nothing exactly when the text is all whitespace. */
  lemma TrimEmptyIffBlank(s: string)
    ensures Trim(s) == "" <==> AllWhitespace(s)
  {
    TrimCharacterized(s);
    var i := TrimFrom(s, 0);
    if Trim(s) != "" {
      assert s[i] == Trim(s)[0];
    }
  }

  /** Trimming an already trimmed text changes nothing. */
  lemma TrimOfTrimmed(s: string)
    requires Trimmed(s)
    ensures Trim(s) == s
  {
    if s != [] {
      assert TrimFrom(s, 0) == 0;
      assert TrimTo(s, 0, |s|) == |s|;
    }
  }

  lemma TrimKeepsNoDelimiter(s: string)
    requires NoDelimiter(s)
    ensures NoDelimiter(Trim(s))
  {
    TrimCharacterized(s);
  }

  // ---------------------------------------------------------------- split

  lemma {:induction false} DelimitersAreDelimiters(s: string)
    ensures forall i :: 0 <= i < |Delimiters(s)| ==> IsDelimiter(Delimiters(s)[i])
  {
    if s != [] {
      DelimitersAreDelimiters(s[1..]);
    }
  }

  /** No fragment contains a delimiter. */
  lemma {:induction false} FragmentsHaveNoDelimiter(s: string)
    ensures forall i :: 0 <= i < |Split(s)| ==> NoDelimiter(Split(s)[i])
  {
    if s != [] {
      FragmentsHaveNoDelimiter(s[1..]);
      var rest := Split(s[1..]);
      if !IsDelimiter(s[0]) {
        var first := [s[0]] + rest[0];
        assert forall k :: 1 <= k < |first| ==> first[k] == rest[0][k - 1];
      }
    }
  }

  lemma {:induction false} RejoinCons(c: char, parts: seq<string>, ds: string)
    requires |parts| == |ds| + 1
    ensures Rejoin([[c] + parts[0]] + parts[1..], ds) == [c] + Rejoin(parts, ds)
  {
    var moved := [[c] + parts[0]] + parts[1..];
    assert moved[1..] == parts[1..];
  }

  /** Putting the delimiters back between the fragments gives the original text. */
  lemma {:induction false} SplitRoundTrip(s: string)
    ensures Rejoin(Split(s), Delimiters(s)) == s
  {
    if s == [] {
    } else if IsDelimiter(s[0]) {
      SplitRoundTrip(s[1..]);
      assert ([""] + Split(s[1..]))[1..] == Split(s[1..]);
      assert s == [s[0]] + s[1..];
    } else {
      SplitRoundTrip(s[1..]);
      RejoinCons(s[0], Split(s[1..]), Delimiters(s[1..]));
      assert s == [s[0]] + s[1..];
    }
  }

  /** Split of a text by its first character. */
  lemma SplitCons(c: char, t: string)
    ensures IsDelimiter(c) ==> Split([c] + t) == [""] + Split(t)
    ensures !IsDelimiter(c) ==> Split([c] + t) == [[c] + Split(t)[0]] + Split(t)[1..]
  {
    assert ([c] + t)[0] == c;
    assert ([c] + t)[1..] == t;
  }

  /** Splitting distributes over a delimiter: fragments on either side stay in order. */
  lemma {:induction false} SplitAround(a: string, d: char, b: string)
    requires IsDelimiter(d)
    ensures Split(a + [d] + b) == Split(a) + Split(b)
  {
    if a == [] {
      assert a + [d] + b == [d] + b;
      SplitCons(d, b);
    } else {
      SplitAround(a[1..], d, b);
      assert a + [d] + b == [a[0]] + (a[1..] + [d] + b);
      assert a == [a[0]] + a[1..];
      SplitAroundStep(a[0], a[1..] + [d] + b, a[1..], b);
    }
  }

  /** One step of SplitAround: a leading character joins both sides' first fragment alike. */
  lemma SplitAroundStep(c: char, t: string, a: string, b: string)
    requires Split(t) == Split(a) + Split(b)
    ensures Split([c] + t) == Split([c] + a) + Split(b)
  {
    if IsDelimiter(c) {
      SplitAroundDelimiterStep(c, t, a, b);
    } else {
      SplitAroundCharStep(c, t, a, b);
    }
  }

  lemma SplitAroundDelimiterStep(c: char, t: string, a: string, b: string)
    requires IsDelimiter(c)
    requires Split(t) == Split(a) + Split(b)
    ensures Split([c] + t) == Split([c] + a) + Split(b)
  {
    SplitCons(c, t);
    SplitCons(c, a);
    ConsAssociates("", Split(a), Split(b));
  }

  lemma ConsAssociates(x: string, ra: seq<string>, rb: seq<string>)
    ensures [x] + (ra + rb) == ([x] + ra) + rb
  {
  }

  lemma SplitAroundCharStep(c: char, t: string, a: string, b: string)
    requires !IsDelimiter(c)
    requires Split(t) == Split(a) + Split(b)
    ensures Split([c] + t) == Split([c] + a) + Split(b)
  {
    SplitCons(c, t);
    SplitCons(c, a);
    JoinIntoFirst([c], Split(a), Split(b));
  }

  /** Extending the first piece of a non-empty list commutes with appending more pieces. */
  lemma JoinIntoFirst(x: string, ra: seq<string>, rb: seq<string>)
    requires |ra| >= 1
    ensures [x + (ra + rb)[0]] + (ra + rb)[1..] == ([x + ra[0]] + ra[1..]) + rb
  {
    assert (ra + rb)[0] == ra[0];
    assert (ra + rb)[1..] == ra[1..] + rb;
  }

  /** A text without delimiters is a single fragment. */
  lemma {:induction false} SplitFragment(p: string)
    requires NoDelimiter(p)
    ensures Split(p) == [p]
  {
    if p != [] {
      SplitFragment(p[1..]);
      assert p == [p[0]] + p[1..];
    }
  }

  /** Split is also a left inverse of Rejoin: the fragments of a joined text are the pieces joined. */
  lemma {:induction false} SplitOfRejoin(parts: seq<string>, ds: string)
    requires |parts| == |ds| + 1
    requires forall i :: 0 <= i < |parts| ==> NoDelimiter(parts[i])
    requires forall i :: 0 <= i < |ds| ==> IsDelimiter(ds[i])
    ensures Split(Rejoin(parts, ds)) == parts
  {
    if ds == [] {
      SplitFragment(parts[0]);
    } else {
      SplitOfRejoin(parts[1..], ds[1..]);
      SplitAround(parts[0], ds[0], Rejoin(parts[1..], ds[1..]));
      SplitFragment(parts[0]);
    }
  }

  // ---------------------------------------------------------------- items

  lemma {:induction false} NonBlankConcat(a: seq<string>, b: seq<string>)
    ensures NonBlank(a + b) == NonBlank(a) + NonBlank(b)
  {
    if a == [] {
      assert a + b == b;
    } else {
      assert (a + b)[1..] == a[1..] + b;
      NonBlankConcat(a[1..], b);
      var head := if Trim(a[0]) != "" then [a[0]] else [];
      assert NonBlank(a + b) == head + NonBlank(a[1..] + b);
      assert head + (NonBlank(a[1..]) + NonBlank(b)) == (head + NonBlank(a[1..])) + NonBlank(b);
    }
  }

  /** The filter on one fragment: kept exactly when its trimmed form is not empty. */
  lemma NonBlankSingleton(p: string)
    ensures NonBlank([p]) == if Trim(p) != "" then [p] else []
  {
    assert NonBlank([p]) == (if Trim(p) != "" then [p] else []) + NonBlank([]);
  }

  lemma {:induction false} NonBlankKeeps(parts: seq<string>)
    ensures forall i :: 0 <= i < |NonBlank(parts)| ==>
      Trim(NonBlank(parts)[i]) != "" && NonBlank(parts)[i] in parts
  {
    if parts != [] {
      NonBlankKeeps(parts[1..]);
      var kept := NonBlank(parts);
      var head := if Trim(parts[0]) != "" then [parts[0]] else [];
      assert kept == head + NonBlank(parts[1..]);
      forall i | 0 <= i < |kept| ensures Trim(kept[i]) != "" && kept[i] in parts {
        if i >= |head| {
          assert kept[i] == NonBlank(parts[1..])[i - |head|];
          assert kept[i] in parts[1..];
        }
      }
    }
  }

  /**
   * Every item is non-empty, trimmed and free of delimiters, and there are at
   * most one more items than delimiters in the text.
   */
  lemma ItemsWellFormed(s: string)
    ensures |Items(s)| <= |Delimiters(s)| + 1
    ensures forall i :: 0 <= i < |Items(s)| ==>
      Items(s)[i] != "" && Trimmed(Items(s)[i]) && NoDelimiter(Items(s)[i])
  {
    var kept := NonBlank(Split(s));
    NonBlankKeeps(Split(s));
    FragmentsHaveNoDelimiter(s);
    forall i | 0 <= i < |kept|
      ensures Trim(kept[i]) != "" && Trimmed(Trim(kept[i])) && NoDelimiter(Trim(kept[i]))
    {
      TrimCharacterized(kept[i]);
      var k :| 0 <= k < |Split(s)| && Split(s)[k] == kept[i];
      TrimKeepsNoDelimiter(kept[i]);
    }
  }

  /** The items of a text are the items on either side of any one delimiter, in order. */
  lemma ItemsAround(a: string, d: char, b: string)
    requires IsDelimiter(d)
    ensures Items(a + [d] + b) == Items(a) + Items(b)
  {
    SplitAround(a, d, b);
    NonBlankConcat(Split(a), Split(b));
  }

  /** A fragment without delimiters yields its trimmed self, or nothing when it is blank. */
  lemma ItemsOfFragment(p: string)
    requires NoDelimiter(p)
    ensures Items(p) == if AllWhitespace(p) then [] else [Trim(p)]
  {
    SplitFragment(p);
    TrimEmptyIffBlank(p);
    NonBlankSingleton(p);
  }

  /** A hyphen inside a word splits it too: "a-b" lists a and b as two items. */
  lemma HyphenSplitsWords(w1: string, w2: string)
    requires NoDelimiter(w1) && NoDelimiter(w2)
    requires !AllWhitespace(w1) && !AllWhitespace(w2)
    ensures Items(w1 + ['-'] + w2) == [Trim(w1), Trim(w2)]
  {
    ItemsAround(w1, '-', w2);
    ItemsOfFragment(w1);
    ItemsOfFragment(w2);
  }

  /** Items of joined fragments: the trimmed non-blank fragments, in their order. */
  lemma ItemsOfRejoin(parts: seq<string>, ds: string)
    requires |parts| == |ds| + 1
    requires forall i :: 0 <= i < |parts| ==> NoDelimiter(parts[i])
    requires forall i :: 0 <= i < |ds| ==> IsDelimiter(ds[i])
    ensures Items(Rejoin(parts, ds)) == TrimEach(NonBlank(parts))
  {
    SplitOfRejoin(parts, ds);
  }

  /**
   * The worked example: "- Run ads", "* Offer discount" and "• Partner with hotel"
   * on three lines give exactly three items.
   */
  lemma ItemsExample()
    ensures Items("-" + " Run ads" + "\n" + "*" + " Offer discount" + "\n" + "\U{2022}" + " Partner with hotel")
         == ["Run ads", "Offer discount", "Partner with hotel"]
  {
    ExampleFragments();
    ThreeMarkedLines('-', " Run ads", '*', " Offer discount", Bullet, " Partner with hotel");
  }

  /** Three lines, each opened by a delimiter, give the three trimmed lines in order. */
  lemma ThreeMarkedLines(d1: char, p1: string, d2: char, p2: string, d3: char, p3: string)
    requires IsDelimiter(d1) && IsDelimiter(d2) && IsDelimiter(d3)
    requires NoDelimiter(p1) && NoDelimiter(p2) && NoDelimiter(p3)
    requires !AllWhitespace(p1) && !AllWhitespace(p2) && !AllWhitespace(p3)
    ensures Items([d1] + p1 + ['\n'] + [d2] + p2 + ['\n'] + [d3] + p3) == [Trim(p1), Trim(p2), Trim(p3)]
  {
    ItemsOfFragment(p1);
    // the first delimiter opens the text, so the fragment before it is empty
    ItemsAfterDelimiter(d1, p1);
    MarkedLine([d1] + p1, d2, p2);
    MarkedLine([d1] + p1 + ['\n'] + [d2] + p2, d3, p3);
  }

  /** A further line opened by a delimiter adds its trimmed text as one more item. */
  lemma MarkedLine(prefix: string, d: char, p: string)
    requires IsDelimiter(d) && NoDelimiter(p) && !AllWhitespace(p)
    ensures Items(prefix + ['\n'] + [d] + p) == Items(prefix) + [Trim(p)]
  {
    ItemsOfFragment(p);
    // the newline is followed at once by a delimiter, leaving an empty fragment
    ItemsBeforeDelimiter(prefix, '\n');
    ItemsAround(prefix + ['\n'], d, p);
  }

  /** A delimiter at the very start adds no item. */
  lemma ItemsAfterDelimiter(d: char, b: string)
    requires IsDelimiter(d)
    ensures Items([d] + b) == Items(b)
  {
    ItemsAround([], d, b);
    ItemsOfFragment([]);
    assert [] + [d] + b == [d] + b;
  }

  /** A delimiter at the very end adds no item. */
  lemma ItemsBeforeDelimiter(a: string, d: char)
    requires IsDelimiter(d)
    ensures Items(a + [d]) == Items(a)
  {
    ItemsAround(a, d, []);
    ItemsOfFragment([]);
    assert a + [d] + [] == a + [d];
  }

  /** The fragments of the worked example: what trim makes of each, and that none holds a delimiter. */
  lemma ExampleFragments()
    ensures NoDelimiter("") && AllWhitespace("")
    ensures NoDelimiter(" Run ads") && !AllWhitespace(" Run ads") && Trim(" Run ads") == "Run ads"
    ensures NoDelimiter(" Offer discount") && !AllWhitespace(" Offer discount")
      && Trim(" Offer discount") == "Offer discount"
    ensures NoDelimiter(" Partner with hotel") && !AllWhitespace(" Partner with hotel")
      && Trim(" Partner with hotel") == "Partner with hotel"
  {
    FirstFragment();
    SecondFragment();
    ThirdFragment();
  }

  // Each fragment is proved in a lemma of its own, which keeps each proof small.

  lemma FirstFragment()
    ensures NoDelimiter(" Run ads") && !AllWhitespace(" Run ads") && Trim(" Run ads") == "Run ads"
  {
    ExampleFragment(" Run ads");
  }

  lemma SecondFragment()
    ensures NoDelimiter(" Offer discount") && !AllWhitespace(" Offer discount")
      && Trim(" Offer discount") == "Offer discount"
  {
    ExampleFragment(" Offer discount");
  }

  lemma ThirdFragment()
    ensures NoDelimiter(" Partner with hotel") && !AllWhitespace(" Partner with hotel")
      && Trim(" Partner with hotel") == "Partner with hotel"
  {
    ExampleFragment(" Partner with hotel");
  }

  /** A space, then letters and inner spaces: trim drops just the space, and no delimiter occurs. */
  lemma ExampleFragment(s: string)
    requires |s| >= 2 && s[0] == ' ' && !IsWhitespace(s[1]) && !IsWhitespace(s[|s| - 1])
    requires forall i :: 0 <= i < |s| ==> s[i] == ' ' || 'A' <= s[i] <= 'z'
    ensures NoDelimiter(s) && !AllWhitespace(s) && Trim(s) == s[1..]
  {
    TrimWord(s);
  }

  /** One leading space and a non-blank last character: trim drops exactly the space. */
  lemma TrimWord(s: string)
    requires |s| >= 2 && s[0] == ' ' && !IsWhitespace(s[1]) && !IsWhitespace(s[|s| - 1])
    ensures Trim(s) == s[1..] && !AllWhitespace(s)
  {
    assert TrimFrom(s, 1) == 1;
    assert TrimTo(s, 1, |s|) == |s|;
  }
}
