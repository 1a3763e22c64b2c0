/** The helper functions of app.py: `clean_domain` and `enforce_length`
    (`char_count` is the length `|s|` of a string and needs no definition). */
module Helpers {
  import opened PyText

  // ---------------------------------------------------------------------
  // clean_domain
  // ---------------------------------------------------------------------

  const Www: string := "www."

  /** `clean_domain(url)`, given what `urlparse(url).netloc` produced:
      `None` when `urlparse` raised, which the function turns into "". */
  function CleanDomain(netloc: Option<string>): (d: string)
    ensures netloc.None? ==> d == ""
    ensures netloc.Some? ==> |d| <= |netloc.value|
  {
    match netloc
    case None => ""
    case Some(host) => if host != "" then ReplaceAll(host, Www, "") else ""
  }

  /** A present netloc, empty or not, is cleaned by Python's `replace`. */
  lemma CleanDomainIsReplace(host: string)
    ensures CleanDomain(Some(host)) == ReplaceAll(host, Www, "")
  {
  }

  /** The cleaned domain equals the netloc exactly when the netloc does not
      contain "www.". */
  lemma CleanDomainUnchangedIff(host: string)
    ensures CleanDomain(Some(host)) == host <==> !(exists j :: OccursAt(host, Www, j))
  {
    RemoveAllUnchangedIff(host, Www);
  }

  /** The leftmost "www." of "wwwww.w." starts at index 2. */
  lemma FindInOverlap()
    ensures Find("wwwww.w.", Www) == 2
  {
    var s0, s1, s2 := "wwwww.w.", "wwww.w.", "www.w.";
    assert s0[..4][3] != Www[3] && s0[1..] == s1;
    assert s1[..4][3] != Www[3] && s1[1..] == s2;
    assert s2[..4] == Www;
  }

  /** Every occurrence is deleted, including ones in the middle of the host,
      and the deletion can create a new "www.": cleaning is not idempotent. */
  lemma CleanDomainNotIdempotent()
    ensures CleanDomain(Some("wwwww.w.")) == "www."
    ensures CleanDomain(Some(CleanDomain(Some("wwwww.w.")))) == ""
  {
    var s0 := "wwwww.w.";
    FindInOverlap();
    assert s0[..2] + "" == "ww" && s0[6..] == "w.";
    assert ReplaceAll("w.", Www, "") == "w.";
    assert ReplaceAll(s0, Www, "") == "ww" + "w.";
    assert "www."[..4] == Www && "www."[4..] == "";
    assert ReplaceAll("www.", Www, "") == "";
  }

  /** The host of "https://www.example.com/shop" cleans to "example.com". */
  lemma CleanDomainExample()
    ensures CleanDomain(Some("www.example.com")) == "example.com"
  {
    var rest := "example.com";
    assert "www.example.com"[..4] == Www && "www.example.com"[4..] == rest;
    assert 'w' !in rest;
    ReplaceAllWithoutLead(rest, Www, "");
  }

  // ---------------------------------------------------------------------
  // enforce_length
  // ---------------------------------------------------------------------

  /** The characters the sentence cut may end on. */
  predicate IsTerminator(c: char) {
    c == '.' || c == '!' || c == '?'
  }

  /** The index of the last terminator in `s`, or -1 when there is none. */
  function LastTerminator(s: string): (k: int)
    ensures -1 <= k < |s|
    ensures k >= 0 ==> IsTerminator(s[k])
  {
    if s == [] then -1
    else if IsTerminator(s[|s| - 1]) then |s| - 1
    else LastTerminator(s[..|s| - 1])
  }

  /** No terminator follows the one `LastTerminator` finds. */
  lemma {:induction false} LastTerminatorIsLast(s: string, j: int)
    requires LastTerminator(s) < j < |s|
    ensures !IsTerminator(s[j])
    decreases |s|
  {
    if j < |s| - 1 {
      assert s[..|s| - 1][j] == s[j];
      LastTerminatorIsLast(s[..|s| - 1], j);
    }
  }

  /** What `re.search(r"(.+[\.!?])[^\.!?]*$", s, re.S)` yields for group 1:
      the prefix ending at the last terminator, provided at least one
      character precedes that terminator (`.+` cannot match empty); with no
      match, `s` itself. */
  function SentenceCut(s: string): (r: string)
    ensures |r| <= |s| && r == s[..|r|]
  {
    var k := LastTerminator(s);
    if k >= 1 then s[..k + 1] else s
  }

  /** `enforce_length(text, min_c, max_c)`; `minC` is accepted and unused,
      as in the source. */
  function EnforceLength(text: string, minC: int, maxC: int): (r: string)
    ensures |r| <= |text| && r == text[..|r|]
    ensures |text| <= maxC ==> r == text
    ensures maxC >= 0 ==> |r| <= maxC
  {
    if |text| <= maxC then text else SentenceCut(SlicePrefix(text, maxC))
  }

  /** An over-long text is cut within its first `maxC` characters: right
      after the last terminator there when one stands at index 1 or later,
      and at exactly `maxC` characters otherwise. */
  lemma EnforceLengthCut(text: string, minC: int, maxC: int)
    requires 0 <= maxC < |text|
    ensures var t, r := text[..maxC], EnforceLength(text, minC, maxC);
            (exists k :: 1 <= k < |t| && IsTerminator(t[k])) ==>
              2 <= |r| && r == t[..|r|] && IsTerminator(r[|r| - 1])
              && forall j :: |r| <= j < |t| ==> !IsTerminator(t[j])
    ensures var t, r := text[..maxC], EnforceLength(text, minC, maxC);
            !(exists k :: 1 <= k < |t| && IsTerminator(t[k])) ==> r == t
  {
    var t := text[..maxC];
    assert SlicePrefix(text, maxC) == t;
    var k := LastTerminator(t);
    if exists k' :: 1 <= k' < |t| && IsTerminator(t[k']) {
      var k' :| 1 <= k' < |t| && IsTerminator(t[k']);
      if k < k' {
        LastTerminatorIsLast(t, k');
      }
      var r := t[..k + 1];
      assert r[|r| - 1] == t[k];
      forall j | |r| <= j < |t| ensures !IsTerminator(t[j]) {
        LastTerminatorIsLast(t, j);
      }
    }
  }

  /** A terminator alone at index 0 does not count: the text is then cut at
      exactly `maxC` characters. */
  lemma EnforceLengthLeadingTerminator()
    ensures EnforceLength(".abc", 0, 3) == ".ab"
  {
    var t := ".abc"[..3];
    assert t == ".ab";
    assert LastTerminator(".ab") == LastTerminator(".a");
    assert LastTerminator(".a") == LastTerminator(".");
    assert LastTerminator(".") == 0;
  }

  /** `min_c` plays no part: a text shorter than the minimum is untouched. */
  lemma EnforceLengthIgnoresMin(text: string, minC: int, minC': int, maxC: int)
    ensures EnforceLength(text, minC, maxC) == EnforceLength(text, minC', maxC)
  {
  }

  /** Enforcing twice with the same (non-negative) window is enforcing once. */
  lemma EnforceLengthIdempotent(text: string, minC: int, maxC: int)
    requires maxC >= 0
    ensures var r := EnforceLength(text, minC, maxC);
            EnforceLength(r, minC, maxC) == r
  {
  }

  /** With a negative `max_c`, Python's slice counts from the end and a second
      application cuts again, so idempotence needs `max_c >= 0`. */
  lemma EnforceLengthNegativeWindow()
    ensures EnforceLength("abcdef", 0, -1) == "abcde"
    ensures EnforceLength("abcde", 0, -1) == "abcd"
  {
    assert LastTerminator("abcde") == -1;
    assert LastTerminator("abcd") == -1;
  }
}
