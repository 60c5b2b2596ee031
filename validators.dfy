/** The two field validators of the waitlist page (src/pages/Index.tsx, lines 28-29).
    Both are total, deterministic predicates over strings. */
module Validators {

  // ---------------------------------------------------------------------------
  // Character classes
  // ---------------------------------------------------------------------------

  /** The regular-expression escape `\s` of ECMAScript: the WhiteSpace code
      points (tab, vertical tab, form feed, space, no-break space, byte order
      mark and the other space separators) and the LineTerminator code points. */
  predicate IsJsSpace(c: char)
    ensures IsJsSpace(c) ==> c != '@' && c != '.'
    ensures IsJsSpace(c) ==> c < '\U{10000}'
  {
    c == '\t' || c == '\n' || c == '\U{B}' || c == '\U{C}' || c == '\r' || c == ' '
    || c == '\U{A0}' || c == '\U{1680}' || ('\U{2000}' <= c <= '\U{200A}')
    || c == '\U{2028}' || c == '\U{2029}' || c == '\U{202F}' || c == '\U{205F}'
    || c == '\U{3000}' || c == '\U{FEFF}'
  }

  /** One character of the class `[^\s@]`. */
  predicate IsAddrChar(c: char) {
    !IsJsSpace(c) && c != '@'
  }

  /** Every character of `s` belongs to `[^\s@]`. */
  predicate AllAddrChars(s: string) {
    forall i :: 0 <= i < |s| ==> IsAddrChar(s[i])
  }

  // ---------------------------------------------------------------------------
  // validateEmail
  // ---------------------------------------------------------------------------

  /** validateEmail: the whole string matches `^[^\s@]+@[^\s@]+\.[^\s@]+$`,
      that is, it splits as  local '@' domain '.' tld  with the three parts
      non-empty and drawn from `[^\s@]`. `at` and `dot` are the positions of
      the literal '@' and '.' of the pattern. */
  predicate ValidateEmail(email: string)
    ensures ValidateEmail(email) ==> 5 <= |email| && email[0] != '@' && email[|email| - 1] != '@'
  {
    exists at, dot | 0 < at < |email| && 0 < dot < |email| :: EmailSplit(email, at, dot)
  }

  /** `email` is  local '@' domain '.' tld  with the '@' at `at`, the '.' at
      `dot`, and the three parts non-empty runs of `[^\s@]`. */
  predicate EmailSplit(email: string, at: int, dot: int)
    ensures EmailSplit(email, at, dot) ==>
      0 < at && at + 1 < dot < |email| - 1 &&
      email == email[..at] + "@" + email[at + 1..dot] + "." + email[dot + 1..]
  {
    0 < at && at + 1 < dot < |email| - 1
    && email[at] == '@' && email[dot] == '.'
    && AllAddrChars(email[..at])
    && AllAddrChars(email[at + 1..dot])
    && AllAddrChars(email[dot + 1..])
  }

  /** The number of occurrences of `c` in `s`. */
  function Count(s: string, c: char): nat {
    if s == [] then 0 else (if s[0] == c then 1 else 0) + Count(s[1..], c)
  }

  /** The position of the first `c` in `s`, or `|s|` when there is none. */
  function IndexOf(s: string, c: char): (r: nat)
    ensures r <= |s|
    ensures r < |s| ==> s[r] == c
    ensures forall i :: 0 <= i < r ==> s[i] != c
  {
    if s == [] then 0 else if s[0] == c then 0 else 1 + IndexOf(s[1..], c)
  }

  /** No character of `s` is a `\s` character. */
  predicate NoSpace(s: string) {
    forall i :: 0 <= i < |s| ==> !IsJsSpace(s[i])
  }

  /** `d` contains a '.' that is neither its first nor its last character. */
  predicate HasInnerDot(d: string) {
    exists k | 0 < k < |d| - 1 :: d[k] == '.'
  }

  /** The shape an accepted address has, stated by counting: no whitespace,
      exactly one '@', something before it, and after it a '.' that is
      neither first nor last. */
  predicate EmailShape(email: string) {
    NoSpace(email) && Count(email, '@') == 1
    && var at := IndexOf(email, '@');
    0 < at < |email| && HasInnerDot(email[at + 1..])
  }

  lemma {:induction false} CountAppend(a: string, b: string, c: char)
    ensures Count(a + b, c) == Count(a, c) + Count(b, c)
  {
    if a == [] {
      assert a + b == b;
    } else {
      assert (a + b)[1..] == a[1..] + b;
      CountAppend(a[1..], b, c);
    }
  }

  lemma {:induction false} CountZero(s: string, c: char)
    ensures Count(s, c) == 0 <==> forall i :: 0 <= i < |s| ==> s[i] != c
  {
    if s != [] {
      CountZero(s[1..], c);
      assert forall i :: 1 <= i < |s| ==> s[i] == s[1..][i - 1];
    }
  }

  /** Splitting at a position of `c`: the count is one more than the counts on the two sides. */
  lemma CountAround(s: string, c: char, p: nat)
    requires p < |s| && s[p] == c
    ensures Count(s, c) == Count(s[..p], c) + 1 + Count(s[p + 1..], c)
  {
    assert s == s[..p] + ([s[p]] + s[p + 1..]);
    CountAppend(s[..p], [s[p]] + s[p + 1..], c);
    CountAppend([s[p]], s[p + 1..], c);
  }

  /** A split that the pattern accepts has the counted shape. */
  lemma SplitGivesShape(email: string, at: int, dot: int)
    requires EmailSplit(email, at, dot)
    ensures EmailShape(email)
  {
    forall i | 0 <= i < |email| && i != at && i != dot ensures IsAddrChar(email[i]) {
      if i < at { assert email[..at][i] == email[i]; }
      else if i < dot { assert email[at + 1..dot][i - at - 1] == email[i]; }
      else { assert email[dot + 1..][i - dot - 1] == email[i]; }
    }
    CountAround(email, '@', at);
    CountZero(email[..at], '@');
    CountZero(email[at + 1..], '@');
    assert email[at + 1..][dot - at - 1] == '.';
  }

  /** A string of the counted shape has a split that the pattern accepts. */
  lemma ShapeGivesSplit(email: string) returns (at: int, dot: int)
    requires EmailShape(email)
    ensures EmailSplit(email, at, dot)
  {
    at := IndexOf(email, '@');
    var d := email[at + 1..];
    var k :| 0 < k < |d| - 1 && d[k] == '.';
    dot := at + 1 + k;
    assert email[dot] == d[k];
    CountAround(email, '@', at);
    CountZero(email[..at], '@');
    CountZero(d, '@');
    forall i | 0 <= i < |email| && i != at ensures IsAddrChar(email[i]) {
      if i < at { assert email[..at][i] == email[i]; }
      else { assert d[i - at - 1] == email[i]; }
    }
    assert AllAddrChars(email[..at]);
    assert AllAddrChars(email[at + 1..dot]);
    assert AllAddrChars(email[dot + 1..]);
  }

  /** The regular expression accepts exactly the strings of EmailShape. */
  lemma EmailCharacterised(email: string)
    ensures ValidateEmail(email) <==> EmailShape(email)
  {
    if ValidateEmail(email) {
      var at, dot :| EmailSplit(email, at, dot);
      SplitGivesShape(email, at, dot);
    }
    if EmailShape(email) {
      var at, dot := ShapeGivesSplit(email);
      assert 0 < at < |email| && 0 < dot < |email|;
    }
  }

  /** A string holding any `\s` character is rejected. */
  lemma EmailRejectsSpace(email: string, i: nat)
    requires i < |email| && IsJsSpace(email[i])
    ensures !ValidateEmail(email)
  {
  }

  /** A string without '@' is rejected. */
  lemma EmailRejectsNoAt(email: string)
    requires Count(email, '@') == 0
    ensures !ValidateEmail(email)
  {
    EmailCharacterised(email);
  }

  /** A string with two or more '@' is rejected. */
  lemma EmailRejectsManyAt(email: string)
    requires Count(email, '@') >= 2
    ensures !ValidateEmail(email)
  {
    EmailCharacterised(email);
  }

  /** The reference examples: "a@b.co" is accepted; "a@b", "ab.com" and "a@b@c.d" are not. */
  lemma EmailExamples()
    ensures ValidateEmail("a@b.co")
    ensures !ValidateEmail("a@b")
    ensures !ValidateEmail("ab.com")
    ensures !ValidateEmail("a@b@c.d")
  {
    var ok := "a@b.co";
    assert ok[..1] == "a" && ok[2..3] == "b" && ok[4..] == "co";
    assert EmailSplit(ok, 1, 3);
    EmailRejectsManyAt("a@b@c.d");
    EmailRejectsNoAt("ab.com");
    EmailCharacterised("a@b");
  }

  // ---------------------------------------------------------------------------
  // validateLinkedIn
  // ---------------------------------------------------------------------------

  /** The literal that a LinkedIn profile URL must contain. */
  const LinkedInMarker: string := "linkedin.com/"

  /** String.prototype.includes: `p` is found at some start position of `s`,
      trying the positions from the left. */
  predicate Includes(s: string, p: string)
    ensures |p| > |s| ==> !Includes(s, p)
    ensures p == [] ==> Includes(s, p)
    decreases |s|
  {
    (|p| <= |s| && s[..|p|] == p) || (s != [] && Includes(s[1..], p))
  }

  /** Reference definition: `p` occurs in `s` as a contiguous block. */
  ghost predicate Occurs(p: string, s: string) {
    exists i :: OccursAt(p, s, i)
  }

  /** `p` occurs in `s` starting at position `i`. */
  predicate OccursAt(p: string, s: string, i: int) {
    0 <= i <= |s| - |p| && s[i..i + |p|] == p
  }

  /** validateLinkedIn. */
  predicate ValidateLinkedIn(url: string)
    ensures ValidateLinkedIn(url) ==> |url| >= |LinkedInMarker|
  {
    Includes(url, LinkedInMarker)
  }

  /** The left-to-right scan finds `p` exactly when `p` occurs in `s`. */
  lemma {:induction false} IncludesIff(s: string, p: string)
    ensures Includes(s, p) <==> Occurs(p, s)
    decreases |s|
  {
    if |p| <= |s| && s[..|p|] == p {
      assert OccursAt(p, s, 0);
    }
    if s != [] {
      IncludesIff(s[1..], p);
      if Occurs(p, s[1..]) {
        var i :| OccursAt(p, s[1..], i);
        assert s[1..][i..i + |p|] == s[i + 1..i + 1 + |p|];
        assert OccursAt(p, s, i + 1);
      }
      if Occurs(p, s) && !(|p| <= |s| && s[..|p|] == p) {
        var i :| OccursAt(p, s, i);
        assert i != 0;
        assert s[1..][i - 1..i - 1 + |p|] == s[i..i + |p|];
        assert OccursAt(p, s[1..], i - 1);
      }
    } else if Occurs(p, s) {
      var i :| OccursAt(p, s, i);
      assert s[..|p|] == s[i..i + |p|];
    }
  }

  /** validateLinkedIn holds exactly when the marker occurs in the URL. */
  lemma LinkedInCharacterised(url: string)
    ensures ValidateLinkedIn(url) <==> Occurs(LinkedInMarker, url)
  {
    IncludesIff(url, LinkedInMarker);
  }

  /** Text put before or after an accepted URL keeps it accepted. */
  lemma LinkedInExtend(pre: string, url: string, post: string)
    requires ValidateLinkedIn(url)
    ensures ValidateLinkedIn(pre + url + post)
  {
    var m := LinkedInMarker;
    LinkedInCharacterised(url);
    var i :| OccursAt(m, url, i);
    var s := pre + url + post;
    assert s[|pre| + i..|pre| + i + |m|] == url[i..i + |m|];
    assert OccursAt(m, s, |pre| + i);
    LinkedInCharacterised(s);
  }

  /** A profile URL is accepted. */
  lemma LinkedInAcceptsProfile()
    ensures ValidateLinkedIn("https://linkedin.com/in/x")
  {
    var good := "https://linkedin.com/in/x";
    assert good[8..21] == LinkedInMarker;
    assert OccursAt(LinkedInMarker, good, 8);
    LinkedInCharacterised(good);
  }

  /** A URL of another site is rejected. */
  lemma LinkedInRejectsOtherSite()
    ensures !ValidateLinkedIn("https://example.com")
  {
    var bad := "https://example.com";
    assert bad[..7] == "https:/";
    forall i | 0 <= i <= |bad| - |LinkedInMarker| ensures !OccursAt(LinkedInMarker, bad, i) {
      assert bad[i] == bad[..7][i] != 'l';
      assert bad[i..i + |LinkedInMarker|][0] != LinkedInMarker[0];
    }
    LinkedInCharacterised(bad);
  }
}
