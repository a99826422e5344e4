/**
 * The two e-mail regular expressions of the upload pipeline, written as grammars that follow the
 * expressions' structure: the upload routes' `/^[\w-\.]+@([\w-]+\.)+[\w-]{2,4}$/` and the wizard's
 * larger `isValidEmail` expression. A regular expression anchored with `^` and `$` accepts a
 * string when some way of splitting it matches; the grammars say so with bounded `exists`.
 */
module Email {
  import opened JsText

  predicate AllChars(s: string, cls: char -> bool) {
    forall i | 0 <= i < |s| :: cls(s[i])
  }

  /** `(P\.)+Q`: one or more P-words, each followed by a dot, then one Q-word. */
  predicate DotSeq(d: string, p: string -> bool, q: string -> bool)
    decreases |d|, 1
  {
    exists k | 0 <= k < |d| :: DotSplit(d, k, p, q)
  }

  /** The first dot of a `(P\.)+Q` match is at k. */
  predicate DotSplit(d: string, k: int, p: string -> bool, q: string -> bool)
    decreases |d|, 0
  {
    0 <= k < |d| && d[k] == '.' && p(d[..k]) && (q(d[k + 1..]) || DotSeq(d[k + 1..], p, q))
  }

  /** The words joined with dots. */
  function DotJoin(words: seq<string>): string {
    if |words| == 0 then ""
    else if |words| == 1 then words[0]
    else words[0] + "." + DotJoin(words[1..])
  }

  /** Every `(P\.)+Q` match is a dot-join of at least two words: P-words and a final Q-word. */
  lemma {:induction false} DotSeqWords(d: string, p: string -> bool, q: string -> bool) returns (words: seq<string>)
    requires DotSeq(d, p, q)
    ensures |words| >= 2 && DotJoin(words) == d
    ensures forall i | 0 <= i < |words| - 1 :: p(words[i])
    ensures q(words[|words| - 1])
    decreases |d|
  {
    var k :| 0 <= k < |d| && DotSplit(d, k, p, q);
    assert d == d[..k] + "." + d[k + 1..];
    if q(d[k + 1..]) {
      words := [d[..k], d[k + 1..]];
      assert words[1..] == [d[k + 1..]];
    } else {
      var rest := DotSeqWords(d[k + 1..], p, q);
      words := [d[..k]] + rest;
      assert words[1..] == rest;
    }
  }

  /** Conversely, every such dot-join matches `(P\.)+Q`. */
  lemma {:induction false} WordsDotSeq(words: seq<string>, p: string -> bool, q: string -> bool)
    requires |words| >= 2
    requires forall i | 0 <= i < |words| - 1 :: p(words[i])
    requires q(words[|words| - 1])
    ensures DotSeq(DotJoin(words), p, q)
    decreases |words|
  {
    var d := DotJoin(words);
    var k := |words[0]|;
    var rest := DotJoin(words[1..]);
    assert d == words[0] + "." + rest;
    assert d[k] == '.' && d[..k] == words[0] && d[k + 1..] == rest;
    if |words| == 2 {
      assert words[1..] == [words[1]];
      assert rest == words[1];
    } else {
      WordsDotSeq(words[1..], p, q);
    }
    assert DotSplit(d, k, p, q);
  }

  /** A character class that covers the dot and every character of the words covers the match. */
  lemma {:induction false} DotSeqChars(d: string, p: string -> bool, q: string -> bool, cls: char -> bool)
    requires DotSeq(d, p, q)
    requires forall w :: p(w) ==> AllChars(w, cls)
    requires forall w :: q(w) ==> AllChars(w, cls)
    requires cls('.')
    ensures AllChars(d, cls)
    decreases |d|
  {
    var k :| 0 <= k < |d| && DotSplit(d, k, p, q);
    if !q(d[k + 1..]) {
      DotSeqChars(d[k + 1..], p, q, cls);
    }
    assert AllChars(d[..k], cls) && AllChars(d[k + 1..], cls);
    forall i | 0 <= i < |d| ensures cls(d[i]) {
      if i < k { assert d[i] == d[..k][i]; }
      else if i > k { assert d[i] == d[k + 1..][i - k - 1]; }
    }
  }

  /** A non-empty string with no leading, trailing or doubled dot. */
  predicate WellDotted(s: string) {
    && |s| >= 1 && s[0] != '.' && s[|s| - 1] != '.'
    && forall i | 0 <= i < |s| - 1 :: !(s[i] == '.' && s[i + 1] == '.')
  }

  predicate DotFreeWord(w: string) {
    |w| >= 1 && forall i | 0 <= i < |w| :: w[i] != '.'
  }

  /** When the words are non-empty and hold no dot, a `(P\.)+Q` match has no stray dot. */
  lemma {:induction false} DotSeqWellDotted(d: string, p: string -> bool, q: string -> bool)
    requires DotSeq(d, p, q)
    requires forall w :: p(w) ==> DotFreeWord(w)
    requires forall w :: q(w) ==> DotFreeWord(w)
    ensures WellDotted(d)
    decreases |d|
  {
    var k :| 0 <= k < |d| && DotSplit(d, k, p, q);
    var w, rest := d[..k], d[k + 1..];
    if !q(rest) {
      DotSeqWellDotted(rest, p, q);
    }
    assert DotFreeWord(w) && WellDotted(rest);
    assert d[0] == w[0];
    assert d[|d| - 1] == rest[|rest| - 1];
    forall i | 0 <= i < |d| - 1 ensures !(d[i] == '.' && d[i + 1] == '.') {
      if i < k { assert d[i] == w[i]; }
      else if i == k { assert d[i + 1] == rest[0]; }
      else { assert d[i] == rest[i - k - 1] && d[i + 1] == rest[i - k]; }
    }
  }

  // ---------------------------------------------------------------------------------------------
  // The two upload routes: /^[\w-\.]+@([\w-]+\.)+[\w-]{2,4}$/

  /** `\w` */
  predicate IsWordChar(c: char) {
    IsAsciiLetter(c) || IsDigit(c) || c == '_'
  }

  /** `[\w-]`, the characters of a domain label and of the top-level label. */
  predicate IsLabelChar(c: char) {
    IsWordChar(c) || c == '-'
  }

  /** `[\w-\.]`: in a class, `\w-\.` is `\w`, a literal '-' and a literal '.'. */
  predicate IsMailboxChar(c: char) {
    IsLabelChar(c) || c == '.'
  }

  /** `[\w-\.]+` */
  predicate IsMailbox(s: string) {
    |s| >= 1 && AllChars(s, IsMailboxChar)
  }

  /** `[\w-]+` */
  predicate IsLabel(s: string) {
    |s| >= 1 && AllChars(s, IsLabelChar)
  }

  /** `[\w-]{2,4}` */
  predicate IsShortTld(s: string) {
    2 <= |s| <= 4 && AllChars(s, IsLabelChar)
  }

  /** The upload routes' e-mail test. */
  predicate IsRouteEmail(s: string) {
    exists i | 0 <= i < |s| :: RouteEmailSplit(s, i)
  }

  /** The routes' test matches with the '@' at i. */
  predicate RouteEmailSplit(s: string, i: int) {
    0 <= i < |s| && s[i] == '@' && IsMailbox(s[..i]) && DotSeq(s[i + 1..], IsLabel, IsShortTld)
  }

  /** The accepted shape, one direction: every accepted address is `L@D1.….Dn.T` with a mailbox L,
      n >= 1 labels and a 2-to-4 character top-level label T. */
  lemma RouteEmailParts(s: string) returns (mailbox: string, labels: seq<string>, tld: string)
    requires IsRouteEmail(s)
    ensures s == mailbox + "@" + DotJoin(labels + [tld])
    ensures IsMailbox(mailbox) && |labels| >= 1 && IsShortTld(tld)
    ensures forall i | 0 <= i < |labels| :: IsLabel(labels[i])
  {
    var i :| 0 <= i < |s| && RouteEmailSplit(s, i);
    var words := DotSeqWords(s[i + 1..], IsLabel, IsShortTld);
    mailbox, labels, tld := s[..i], words[..|words| - 1], words[|words| - 1];
    assert labels + [tld] == words;
    assert s == s[..i] + "@" + s[i + 1..];
    forall j | 0 <= j < |labels| ensures IsLabel(labels[j]) {
      assert labels[j] == words[j];
    }
  }

  /** Where the parts of `local + "@" + domain` sit. */
  lemma AtJoin(local: string, domain: string)
    ensures var s := local + "@" + domain;
      s[|local|] == '@' && s[..|local|] == local && s[|local| + 1..] == domain
  {
    var s := local + "@" + domain;
    assert s[..|local|] == local;
    assert s[|local| + 1..] == domain;
  }

  /** The accepted shape, the other direction: every `L@D1.….Dn.T` of that form is accepted. */
  lemma RouteEmailOfParts(mailbox: string, labels: seq<string>, tld: string)
    requires IsMailbox(mailbox) && |labels| >= 1 && IsShortTld(tld)
    requires forall i | 0 <= i < |labels| :: IsLabel(labels[i])
    ensures IsRouteEmail(mailbox + "@" + DotJoin(labels + [tld]))
  {
    RouteDomainOfParts(labels, tld);
    AtJoin(mailbox, DotJoin(labels + [tld]));
    assert RouteEmailSplit(mailbox + "@" + DotJoin(labels + [tld]), |mailbox|);
  }

  /** Labels followed by a top-level label, joined with dots, form a domain of the routes' test. */
  lemma RouteDomainOfParts(labels: seq<string>, tld: string)
    requires |labels| >= 1 && IsShortTld(tld)
    requires forall i | 0 <= i < |labels| :: IsLabel(labels[i])
    ensures DotSeq(DotJoin(labels + [tld]), IsLabel, IsShortTld)
  {
    var words := labels + [tld];
    forall i | 0 <= i < |words| - 1 ensures IsLabel(words[i]) {
      assert words[i] == labels[i];
    }
    WordsDotSeq(words, IsLabel, IsShortTld);
  }

  predicate IsDomainChar(c: char) {
    IsLabelChar(c) || c == '.'
  }

  /** An accepted address holds exactly one '@'. */
  lemma RouteEmailOneAt(s: string)
    requires IsRouteEmail(s)
    ensures multiset(s)['@'] == 1
  {
    var i :| 0 <= i < |s| && RouteEmailSplit(s, i);
    DotSeqChars(s[i + 1..], IsLabel, IsShortTld, IsDomainChar);
    AtSplit(s, i);
    MailboxLacksAt(s[..i]);
    DomainLacksAt(s[i + 1..]);
    assert multiset(s) == multiset(s[..i]) + multiset{'@'} + multiset(s[i + 1..]);
  }

  lemma MailboxLacksAt(l: string)
    requires AllChars(l, IsMailboxChar)
    ensures multiset(l)['@'] == 0
  {
    assert '@' !in l by {
      forall j | 0 <= j < |l| ensures l[j] != '@' { assert IsMailboxChar(l[j]); }
    }
  }

  lemma DomainLacksAt(d: string)
    requires AllChars(d, IsDomainChar)
    ensures multiset(d)['@'] == 0
  {
    assert '@' !in d by {
      forall j | 0 <= j < |d| ensures d[j] != '@' { assert IsDomainChar(d[j]); }
    }
  }

  /** A typical address passes. */
  lemma RouteEmailExample()
    ensures IsRouteEmail("jo@x.io")
  {
    var s := "jo@x.io";
    assert s[..2] == "jo" && s[3..] == "x.io";
    assert "x.io"[..1] == "x" && "x.io"[2..] == "io";
    assert IsMailbox("jo") && IsLabel("x") && IsShortTld("io");
    assert DotSplit("x.io", 1, IsLabel, IsShortTld);
    assert RouteEmailSplit(s, 2);
  }

  // ---------------------------------------------------------------------------------------------
  // The wizard's isValidEmail:
  // ^(([^<>()[\]\\.,;:\s@\"]+(\.[^<>()[\]\\.,;:\s@\"]+)*)|(\".+\"))@
  //  ((\[[0-9]{1,3}\.[0-9]{1,3}\.[0-9]{1,3}\.[0-9]{1,3}\])|(([a-zA-Z\-0-9]+\.)+[a-zA-Z]{2,}))$

  /** `[^<>()[\]\\.,;:\s@\"]` */
  predicate IsAtomChar(c: char) {
    c !in "<>()[]\\.,;:@\"" && !IsJsSpace(c)
  }

  /** `[^<>()[\]\\.,;:\s@\"]+` */
  predicate IsAtom(s: string) {
    |s| >= 1 && AllChars(s, IsAtomChar)
  }

  /** `A+(\.A+)*`: one atom, or atoms joined by single dots. */
  predicate IsDotAtom(s: string) {
    IsAtom(s) || DotSeq(s, IsAtom, IsAtom)
  }

  /** `\".+\"`: quotes around at least one character other than a line terminator; the inner
      characters may include '"' and '@'. */
  predicate IsQuoted(s: string) {
    && |s| >= 3 && s[0] == '"' && s[|s| - 1] == '"'
    && forall i | 1 <= i < |s| - 1 :: !IsLineTerminator(s[i])
  }

  predicate IsLocalPart(s: string) {
    IsDotAtom(s) || IsQuoted(s)
  }

  /** `[0-9]{1,3}` */
  predicate IsOctet(s: string) {
    1 <= |s| <= 3 && IsDigits(s)
  }

  /** n dot-separated `[0-9]{1,3}` groups. */
  predicate DottedOctets(s: string, n: nat)
    decreases n, 1
  {
    if n <= 1 then IsOctet(s)
    else exists k | 0 <= k < |s| :: OctetSplit(s, k, n)
  }

  /** The first of n > 1 dotted groups ends just before k. */
  predicate OctetSplit(s: string, k: int, n: nat)
    requires n > 1
    decreases n, 0
  {
    0 <= k < |s| && s[k] == '.' && IsOctet(s[..k]) && DottedOctets(s[k + 1..], n - 1)
  }

  /** `\[[0-9]{1,3}\.[0-9]{1,3}\.[0-9]{1,3}\.[0-9]{1,3}\]`: no check that a group is at most 255. */
  predicate IsAddressLiteral(s: string) {
    |s| >= 2 && s[0] == '[' && s[|s| - 1] == ']' && DottedOctets(s[1..|s| - 1], 4)
  }

  /** `[a-zA-Z\-0-9]+` */
  predicate IsHostLabel(s: string) {
    |s| >= 1 && forall i | 0 <= i < |s| :: IsAsciiLetter(s[i]) || IsDigit(s[i]) || s[i] == '-'
  }

  /** `[a-zA-Z]{2,}` */
  predicate IsTopLabel(s: string) {
    |s| >= 2 && forall i | 0 <= i < |s| :: IsAsciiLetter(s[i])
  }

  predicate IsDomain(s: string) {
    IsAddressLiteral(s) || DotSeq(s, IsHostLabel, IsTopLabel)
  }

  /** `isValidEmail(email)` of the e-mail step. */
  predicate IsValidEmail(s: string) {
    exists i | 0 <= i < |s| :: ValidSplit(s, i)
  }

  /** `isValidEmail` matches with the '@' at i. */
  predicate ValidSplit(s: string, i: int) {
    0 <= i < |s| && s[i] == '@' && IsLocalPart(s[..i]) && IsDomain(s[i + 1..])
  }

  /** An unquoted local part has no leading, trailing or doubled dot. */
  lemma DotAtomWellDotted(s: string)
    requires IsDotAtom(s)
    ensures WellDotted(s)
  {
    assert forall w :: IsAtom(w) ==> DotFreeWord(w) by {
      forall w | IsAtom(w) ensures DotFreeWord(w) {
        forall i | 0 <= i < |w| ensures w[i] != '.' {
          assert IsAtomChar(w[i]);
        }
      }
    }
    if !IsAtom(s) {
      DotSeqWellDotted(s, IsAtom, IsAtom);
    } else {
      assert IsAtomChar(s[0]) && IsAtomChar(s[|s| - 1]);
    }
  }

  /** Neither domain form contains '@', so an accepted address is split at its last '@'. */
  lemma DomainHasNoAt(d: string)
    requires IsDomain(d)
    ensures '@' !in d
  {
    if IsAddressLiteral(d) {
      var inner := d[1..|d| - 1];
      DottedOctetsChars(inner, 4);
      forall j | 0 <= j < |d| ensures d[j] != '@' {
        if 0 < j < |d| - 1 {
          assert d[j] == inner[j - 1];
        }
      }
    } else {
      DotSeqChars(d, IsHostLabel, IsTopLabel, IsHostChar);
      forall j | 0 <= j < |d| ensures d[j] != '@' { assert IsHostChar(d[j]); }
    }
  }

  predicate IsHostChar(c: char) {
    IsAsciiLetter(c) || IsDigit(c) || c == '-' || c == '.'
  }

  lemma {:induction false} DottedOctetsChars(s: string, n: nat)
    requires DottedOctets(s, n)
    ensures forall i | 0 <= i < |s| :: IsDigit(s[i]) || s[i] == '.'
    decreases n
  {
    if n > 1 {
      var k :| 0 <= k < |s| && OctetSplit(s, k, n);
      DottedOctetsChars(s[k + 1..], n - 1);
      forall i | 0 <= i < |s| ensures IsDigit(s[i]) || s[i] == '.' {
        if i < k { assert s[i] == s[..k][i]; }
        else if i > k { assert s[i] == s[k + 1..][i - k - 1]; }
      }
    }
  }

  /** The '@' an accepted address is split at is its last one. */
  lemma ValidEmailSplitsAtLastAt(s: string, i: nat)
    requires ValidSplit(s, i)
    ensures forall j | i < j < |s| :: s[j] != '@'
  {
    DomainHasNoAt(s[i + 1..]);
    forall j | i < j < |s| ensures s[j] != '@' {
      assert s[j] == s[i + 1..][j - i - 1];
    }
  }

  lemma {:induction false} OctetsCons(x: string, rest: string, n: nat)
    requires IsOctet(x) && n >= 1 && DottedOctets(rest, n)
    ensures DottedOctets(x + "." + rest, n + 1)
  {
    var s := x + "." + rest;
    var k := |x|;
    assert s[k] == '.' && s[..k] == x && s[k + 1..] == rest;
    assert OctetSplit(s, k, n + 1);
  }

  lemma AddressLiteralOf(inner: string)
    requires DottedOctets(inner, 4)
    ensures IsAddressLiteral("[" + inner + "]")
  {
    var d := "[" + inner + "]";
    assert d[1..|d| - 1] == inner;
  }

  /** A group of the address literal may exceed 255. */
  lemma OctetMayExceedByte()
    ensures IsOctet("999") && DecimalValue("999") > 255
  {
    var s := "999";
    assert s[..2] == "99" && "99"[..1] == "9" && "9"[..0] == "";
    assert Value("9", 10) == 9;
    assert Value("99", 10) == 99;
    assert Value(s, 10) == 999;
  }

  /** Every local part and domain joined by '@' is accepted. */
  lemma ValidEmailOfParts(local: string, domain: string)
    requires IsLocalPart(local) && IsDomain(domain)
    ensures IsValidEmail(local + "@" + domain)
  {
    AtJoin(local, domain);
    assert ValidSplit(local + "@" + domain, |local|);
  }

  /** Conversely, every accepted address is a local part and a domain joined by '@'. */
  lemma ValidEmailParts(s: string) returns (local: string, domain: string)
    requires IsValidEmail(s)
    ensures s == local + "@" + domain && IsLocalPart(local) && IsDomain(domain)
  {
    var i :| 0 <= i < |s| && ValidSplit(s, i);
    AtSplit(s, i);
    local, domain := s[..i], s[i + 1..];
  }

  /** A string is what precedes an '@' in it, the '@', and what follows. */
  lemma AtSplit(s: string, i: nat)
    requires i < |s| && s[i] == '@'
    ensures s == s[..i] + "@" + s[i + 1..]
  {
    assert s == s[..i] + [s[i]] + s[i + 1..];
  }

  /** The address literal has no 0-255 range check: any four groups of one to three digits
      are accepted. */
  lemma AddressLiteralUnchecked(local: string, a: string, b: string, c: string, d: string)
    requires IsAtom(local) && IsOctet(a) && IsOctet(b) && IsOctet(c) && IsOctet(d)
    ensures IsValidEmail(local + "@" + ("[" + (a + "." + (b + "." + (c + "." + d))) + "]"))
  {
    OctetsCons(c, d, 1);
    OctetsCons(b, c + "." + d, 2);
    OctetsCons(a, b + "." + (c + "." + d), 3);
    AddressLiteralOf(a + "." + (b + "." + (c + "." + d)));
    ValidEmailOfParts(local, "[" + (a + "." + (b + "." + (c + "." + d))) + "]");
  }

  /** A quoted local part may itself contain '@'. */
  lemma QuotedLocalPartMayHoldAt()
    ensures IsValidEmail("\"a@b\"" + "@" + ("example" + "." + "com"))
  {
    var q := "\"a@b\"";
    assert IsQuoted(q) by {
      forall i | 1 <= i < |q| - 1 ensures !IsLineTerminator(q[i]) {
        assert q[i] == 'a' || q[i] == '@' || q[i] == 'b';
      }
    }
    var words := ["example", "com"];
    assert IsHostLabel(words[0]) && IsTopLabel(words[1]);
    WordsDotSeq(words, IsHostLabel, IsTopLabel);
    assert DotJoin(words) == "example" + "." + "com" by {
      assert words[1..] == ["com"];
    }
    ValidEmailOfParts(q, "example" + "." + "com");
  }
}
