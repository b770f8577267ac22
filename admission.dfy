/**
 * The URL admission test of the bot: a message is handled as a download
 * request only if it mentions one of the two video-site domains. The test is
 * applied once to the raw message text (handle_message) and once more to the
 * whitespace-stripped text (download_audio).
 */
module Admission {

  /** The domains whose presence admits a message, in the order the source tries them. */
  const Domains: seq<string> := ["youtube.com", "youtu.be"]

  /** Python's `str.isspace` for a single code point. */
  predicate IsSpace(c: char) {
    c == ' ' || ('\t' <= c <= '\r') || ('\U{1C}' <= c <= '\U{1F}') ||
    c == '\U{85}' || c == '\U{A0}' || c == '\U{1680}' ||
    ('\U{2000}' <= c <= '\U{200A}') || c == '\U{2028}' || c == '\U{2029}' ||
    c == '\U{202F}' || c == '\U{205F}' || c == '\U{3000}'
  }

  /** Number of leading whitespace code points of `s`. */
  function Lead(s: string): (n: nat)
    ensures n <= |s|
    ensures forall k :: 0 <= k < n ==> IsSpace(s[k])
    ensures n < |s| ==> !IsSpace(s[n])
  {
    if |s| > 0 && IsSpace(s[0]) then 1 + Lead(s[1..]) else 0
  }

  /** Number of trailing whitespace code points of `s`. */
  function Trail(s: string): (n: nat)
    ensures n <= |s|
    ensures forall k :: |s| - n <= k < |s| ==> IsSpace(s[k])
    ensures n < |s| ==> !IsSpace(s[|s| - 1 - n])
  {
    if |s| > 0 && IsSpace(s[|s| - 1]) then 1 + Trail(s[..|s| - 1]) else 0
  }

  /**
   * Python's `str.strip()` with no argument: the longest slice of `s` that
   * neither starts nor ends with whitespace, everything cut off being
   * whitespace.
   */
  function Strip(s: string): (r: string)
    ensures Lead(s) + |r| <= |s| && r == s[Lead(s)..Lead(s) + |r|]
    ensures r == [] || (!IsSpace(r[0]) && !IsSpace(r[|r| - 1]))
    ensures forall k :: 0 <= k < Lead(s) ==> IsSpace(s[k])
    ensures forall k :: Lead(s) + |r| <= k < |s| ==> IsSpace(s[k])
  {
    var t := s[Lead(s)..];
    t[..|t| - Trail(t)]
  }

  /** `pat in s` for Python strings, scanning the start positions of `s` left to right. */
  function Contains(s: string, pat: string): bool
    decreases |s|
  {
    if |pat| > |s| then false
    else if s[..|pat|] == pat then true
    else Contains(s[1..], pat)
  }

  /** `pat` occurs in `s` starting at index `i`. */
  ghost predicate OccursAt(s: string, pat: string, i: nat) {
    i + |pat| <= |s| && s[i..i + |pat|] == pat
  }

  /** The scan finds `pat` exactly when it occurs somewhere in `s`. */
  lemma {:induction false} ContainsIff(s: string, pat: string)
    ensures Contains(s, pat) <==> exists i: nat :: OccursAt(s, pat, i)
    decreases |s|
  {
    if |pat| > |s| {
      forall i: nat ensures !OccursAt(s, pat, i) {}
    } else if s[..|pat|] == pat {
      assert OccursAt(s, pat, 0);
    } else {
      ContainsIff(s[1..], pat);
      if Contains(s, pat) {
        var i: nat :| OccursAt(s[1..], pat, i);
        assert s[i + 1..i + 1 + |pat|] == s[1..][i..i + |pat|];
        assert OccursAt(s, pat, i + 1);
      } else {
        forall i: nat | OccursAt(s, pat, i) ensures false {
          if i > 0 {
            assert s[1..][i - 1..i - 1 + |pat|] == s[i..i + |pat|];
            assert OccursAt(s[1..], pat, i - 1);
          }
        }
      }
    }
  }

  /** `any(domain in text for domain in ['youtube.com', 'youtu.be'])`. */
  predicate Admitted(text: string): (r: bool)
    ensures r <==> (exists i: nat :: OccursAt(text, Domains[0], i)) || (exists i: nat :: OccursAt(text, Domains[1], i))
  {
    ContainsIff(text, Domains[0]);
    ContainsIff(text, Domains[1]);
    Contains(text, Domains[0]) || Contains(text, Domains[1])
  }

  /** Neither domain contains a whitespace code point, and neither is empty. */
  lemma DomainsHaveNoSpace()
    ensures forall d, k :: d in Domains && 0 <= k < |d| ==> !IsSpace(d[k])
    ensures forall d :: d in Domains ==> |d| > 0
  {
    forall d, k | d in Domains && 0 <= k < |d| ensures !IsSpace(d[k]) {
      if d == Domains[0] {
        assert d[k] in "youtube.com";
      } else {
        assert d[k] in "youtu.be";
      }
    }
  }

  /**
   * A non-empty pattern without whitespace occurs in a text exactly when it
   * occurs in the stripped text: stripping cuts away only whitespace, and an
   * occurrence begins and ends on a non-whitespace code point.
   */
  lemma ContainsStrip(s: string, pat: string)
    requires |pat| > 0
    requires forall k :: 0 <= k < |pat| ==> !IsSpace(pat[k])
    ensures Contains(Strip(s), pat) <==> Contains(s, pat)
  {
    ContainsIff(Strip(s), pat);
    ContainsIff(s, pat);
    if Contains(Strip(s), pat) {
      var i: nat :| OccursAt(Strip(s), pat, i);
      StrippedOccurrence(s, pat, i);
    }
    if Contains(s, pat) {
      var i: nat :| OccursAt(s, pat, i);
      TextOccurrence(s, pat, i);
    }
  }

  /** An occurrence in the stripped text is one in the text, shifted by the cut-off prefix. */
  lemma StrippedOccurrence(s: string, pat: string, i: nat)
    requires OccursAt(Strip(s), pat, i)
    ensures OccursAt(s, pat, Lead(s) + i)
  {
    SliceOccurrence(s, Strip(s), Lead(s), pat, i);
  }

  /**
   * An occurrence of a non-empty, whitespace-free pattern lies inside the
   * stripped part of the text.
   */
  lemma TextOccurrence(s: string, pat: string, i: nat)
    requires |pat| > 0
    requires forall k :: 0 <= k < |pat| ==> !IsSpace(pat[k])
    requires OccursAt(s, pat, i)
    ensures Lead(s) <= i && OccursAt(Strip(s), pat, i - Lead(s))
  {
    var r, a := Strip(s), Lead(s);
    var j := i + |pat| - 1;
    assert !IsSpace(s[i]) by { assert s[i..i + |pat|][0] == s[i]; }
    assert !IsSpace(s[j]) by { assert s[i..i + |pat|][|pat| - 1] == s[j]; }
    InnerOccurrence(s, r, a, pat, i);
  }

  /** An occurrence in a slice `r` of `s` starting at `a` is an occurrence in `s`. */
  lemma SliceOccurrence(s: string, r: string, a: nat, pat: string, i: nat)
    requires a + |r| <= |s| && r == s[a..a + |r|]
    requires OccursAt(r, pat, i)
    ensures OccursAt(s, pat, a + i)
  {
    forall k | 0 <= k < |pat| ensures s[a + i + k] == pat[k] {
      assert r[i..i + |pat|][k] == r[i + k];
    }
    assert s[a + i..a + i + |pat|] == pat;
  }

  /** An occurrence in `s` that lies within the slice `r` starting at `a` is an occurrence in `r`. */
  lemma InnerOccurrence(s: string, r: string, a: nat, pat: string, i: nat)
    requires a + |r| <= |s| && r == s[a..a + |r|]
    requires a <= i && i + |pat| <= a + |r|
    requires OccursAt(s, pat, i)
    ensures OccursAt(r, pat, i - a)
  {
    forall k | 0 <= k < |pat| ensures r[i - a + k] == pat[k] {
      assert s[i..i + |pat|][k] == s[i + k];
    }
    assert r[i - a..i - a + |pat|] == pat;
  }

  /**
   * Stripping never changes the admission decision, so a message admitted by
   * handle_message is always admitted again inside download_audio.
   */
  lemma StripPreservesAdmission(text: string)
    ensures Admitted(Strip(text)) <==> Admitted(text)
  {
    DomainsHaveNoSpace();
    assert Domains[0] in Domains && Domains[1] in Domains;
    ContainsStrip(text, Domains[0]);
    ContainsStrip(text, Domains[1]);
  }

  /** A text that embeds a domain is admitted. */
  lemma EmbeddedDomainAdmitted(before: string, k: nat, after: string)
    requires k < |Domains|
    ensures Admitted(before + Domains[k] + after)
  {
    var s := before + Domains[k] + after;
    assert s[|before|..|before| + |Domains[k]|] == Domains[k];
    assert OccursAt(s, Domains[k], |before|);
    ContainsIff(s, Domains[k]);
  }

  /** Short links and watch links are admitted, whatever the video id. */
  lemma LinksAdmitted(id: string)
    ensures Admitted("https://youtu.be/" + id)
    ensures Admitted("https://www.youtube.com/watch?v=" + id)
  {
    ShortLinkAdmitted(id);
    WatchLinkAdmitted(id);
  }

  lemma ShortLinkAdmitted(id: string)
    ensures Admitted("https://youtu.be/" + id)
  {
    assert Domains[1] == "youtu.be";
    EmbeddedDomainAdmitted("https://", 1, "/" + id);
    assert "https://" + Domains[1] + ("/" + id) == "https://youtu.be/" + id;
  }

  lemma WatchLinkAdmitted(id: string)
    ensures Admitted("https://www.youtube.com/watch?v=" + id)
  {
    assert Domains[0] == "youtube.com";
    EmbeddedDomainAdmitted("https://www.", 0, "/watch?v=" + id);
    assert "https://www." + Domains[0] + ("/watch?v=" + id) == "https://www.youtube.com/watch?v=" + id;
  }
}
