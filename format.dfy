/**
 * The reply formatting of download_audio: the title and performer sent with
 * the audio, the `minutes:ss` duration text and the four-line caption.
 */
module Format {

  datatype Option<T> = None | Some(value: T) {
    /** `dict.get(key, default)`: the value when the key is present. */
    function GetOr(default: T): T {
      match this
      case Some(v) => v
      case None => default
    }
  }

  const MaxTitle: nat := 64
  const MaxPerformer: nat := 32
  const DefaultTitle: string := "Audio"
  const DefaultUploader: string := "Unknown"
  const Attribution: string := "Developer : @mengheang25"

  /** Python's `s[:n]` for a non-negative `n`. */
  function Truncate(s: string, n: nat): (r: string)
    ensures |r| <= n && r <= s
    ensures |s| <= n ==> r == s
    ensures |s| > n ==> |r| == n
  {
    if |s| <= n then s else s[..n]
  }

  /** `info.get('title', 'Audio')[:64]`: the title sent with the audio. */
  function SentTitle(title: Option<string>): (r: string)
    ensures |r| <= MaxTitle
    ensures title.Some? ==> r <= title.value && (|title.value| <= MaxTitle ==> r == title.value)
    ensures title.Some? && |title.value| > MaxTitle ==> |r| == MaxTitle
    ensures title.None? ==> r == DefaultTitle
  {
    Truncate(title.GetOr(DefaultTitle), MaxTitle)
  }

  /** `info.get('uploader', 'Unknown')[:32]`: the performer sent with the audio. */
  function SentPerformer(uploader: Option<string>): (r: string)
    ensures |r| <= MaxPerformer
    ensures uploader.Some? ==> r <= uploader.value && (|uploader.value| <= MaxPerformer ==> r == uploader.value)
    ensures uploader.Some? && |uploader.value| > MaxPerformer ==> |r| == MaxPerformer
    ensures uploader.None? ==> r == DefaultUploader
  {
    Truncate(uploader.GetOr(DefaultUploader), MaxPerformer)
  }

  predicate IsDigit(c: char) {
    '0' <= c <= '9'
  }

  predicate AllDigits(s: string) {
    forall k :: 0 <= k < |s| ==> IsDigit(s[k])
  }

  function DigitChar(d: nat): (c: char)
    requires d < 10
    ensures IsDigit(c) && c as int - '0' as int == d
  {
    ('0' as int + d) as char
  }

  /** Decimal value of a string of digits (the reading of a rendered number). */
  function ParseNat(s: string): nat
    requires AllDigits(s)
  {
    if s == [] then 0
    else ParseNat(s[..|s| - 1]) * 10 + (s[|s| - 1] as int - '0' as int)
  }

  /** `str(n)` for a non-negative integer: its decimal digits, without leading zeros. */
  function NatToString(n: nat): (r: string)
    ensures |r| >= 1 && AllDigits(r)
    ensures r[0] == '0' ==> n == 0
    ensures n == 0 ==> r == "0"
  {
    if n < 10 then [DigitChar(n)] else NatToString(n / 10) + [DigitChar(n % 10)]
  }

  /** Reading the decimal rendering of `n` gives `n` back. */
  lemma {:induction false} ParseNatToString(n: nat)
    ensures ParseNat(NatToString(n)) == n
  {
    var s := NatToString(n);
    if n < 10 {
      assert s[..0] == [];
    } else {
      ParseNatToString(n / 10);
      assert s[..|s| - 1] == NatToString(n / 10);
    }
  }

  /** Python's `f"{n:02d}"`: `n` in decimal, left-padded with zeros to two digits. */
  function ZeroPad2(n: nat): (r: string)
    ensures AllDigits(r)
    ensures n < 100 ==> |r| == 2
    ensures ParseNat(r) == n
  {
    ParseNatToString(n);
    if n < 10 then
      var r := ['0'] + NatToString(n);
      assert r[..1] == ['0'] && r[1..] == NatToString(n);
      assert ParseNat(r[..1]) == 0 by { assert r[..1][..0] == []; }
      r
    else NatToString(n)
  }

  /** Python's `f"{duration // 60}:{duration % 60:02d}"`. */
  function DurationStr(d: nat): (r: string)
    ensures |r| >= 4 && r[|r| - 3] == ':'
    ensures AllDigits(r[..|r| - 3]) && AllDigits(r[|r| - 2..])
    ensures ParseNat(r[..|r| - 3]) == d / 60
    ensures r[..|r| - 3] == NatToString(d / 60)
    ensures ParseNat(r[|r| - 2..]) == d % 60 < 60
  {
    var m := NatToString(d / 60);
    ParseNatToString(d / 60);
    var r := m + [':'] + ZeroPad2(d % 60);
    assert r[..|r| - 3] == m && r[|r| - 2..] == ZeroPad2(d % 60);
    r
  }

  /**
   * Reads a `minutes:ss` text back into seconds; `None` unless it is digits,
   * a colon and two digits below 60.
   */
  function ParseDuration(s: string): Option<nat> {
    if |s| >= 4 && s[|s| - 3] == ':' && AllDigits(s[..|s| - 3]) && AllDigits(s[|s| - 2..]) then
      var minutes, seconds := ParseNat(s[..|s| - 3]), ParseNat(s[|s| - 2..]);
      if seconds < 60 then Some(minutes * 60 + seconds) else None
    else None
  }

  /** The duration text always reads back as the duration it renders. */
  lemma DurationRoundTrip(d: nat)
    ensures ParseDuration(DurationStr(d)) == Some(d)
  {
  }

  /** Each example of the `minutes:ss` layout, rendered digit by digit. */
  lemma DurationExamples()
    ensures DurationStr(0) == "0:00"
    ensures DurationStr(59) == "0:59"
    ensures DurationStr(60) == "1:00"
    ensures DurationStr(185) == "3:05"
    ensures DurationStr(3661) == "61:01"
  {
    // One helper per example keeps each unfolding of the renderer small.
    DurationOfZero();
    DurationOf59();
    DurationOf60();
    DurationOf185();
    DurationOf3661();
  }

  lemma DurationOfZero() ensures DurationStr(0) == "0:00" { ZeroPadSmall(0); }

  lemma DurationOf59() ensures DurationStr(59) == "0:59" {
    assert NatToString(59) == NatToString(5) + [DigitChar(9)];
  }

  lemma DurationOf60() ensures DurationStr(60) == "1:00" { ZeroPadSmall(0); }

  lemma DurationOf185() ensures DurationStr(185) == "3:05" { ZeroPadSmall(5); }

  lemma DurationOf3661() ensures DurationStr(3661) == "61:01" {
    assert NatToString(61) == "61" by {
      assert NatToString(61) == NatToString(6) + [DigitChar(1)];
    }
    ZeroPadSmall(1);
  }

  /** A single digit is padded with one leading zero. */
  lemma ZeroPadSmall(n: nat)
    requires n < 10
    ensures ZeroPad2(n) == ['0', DigitChar(n)]
  {
  }

  /** Python's `'\n'.join(ls)` for a non-empty list of lines. */
  function Join(ls: seq<string>): string
    requires |ls| >= 1
  {
    if |ls| == 1 then ls[0] else ls[0] + "\n" + Join(ls[1..])
  }

  /**
   * The caption of the audio reply: the title line, the uploader line, the
   * duration line and the attribution, one per line.
   */
  function Caption(title: string, uploader: string, duration: string): string {
    Join(["🎵 " + title, "👤 " + uploader, "⏱️ " + duration, Attribution])
  }

  /** Python's `s.split('\n')`: the pieces between newlines, always at least one. */
  function Lines(s: string): (r: seq<string>)
    ensures |r| >= 1
    ensures forall i :: 0 <= i < |r| ==> '\n' !in r[i]
  {
    if s == [] then [[]]
    else
      var rest := Lines(s[1..]);
      if s[0] == '\n' then [[]] + rest else [[s[0]] + rest[0]] + rest[1..]
  }

  /** A text without newlines is one line. */
  lemma {:induction false} LinesOfOne(a: string)
    requires '\n' !in a
    ensures Lines(a) == [a]
  {
    if a != [] {
      LinesOfOne(a[1..]);
      assert [a[0]] + a[1..] == a;
    }
  }

  /** A newline-free first line followed by a newline splits off as one line. */
  lemma {:induction false} LinesCons(a: string, b: string)
    requires '\n' !in a
    ensures Lines(a + "\n" + b) == [a] + Lines(b)
  {
    if a == [] {
      assert a + "\n" + b == "\n" + b;
      assert ("\n" + b)[1..] == b;
    } else {
      LinesCons(a[1..], b);
      assert (a + "\n" + b)[1..] == a[1..] + "\n" + b;
      assert [a[0]] + a[1..] == a;
    }
  }

  /** The duration text is digits and a colon, so never a newline. */
  lemma DurationHasNoNewline(d: nat)
    ensures '\n' !in DurationStr(d)
  {
    var r := DurationStr(d);
    forall k | 0 <= k < |r| ensures r[k] != '\n' {
      if k < |r| - 3 {
        assert r[..|r| - 3][k] == r[k];
      } else if k > |r| - 3 {
        assert r[|r| - 2..][k - (|r| - 2)] == r[k];
      }
    }
  }

  /** Splitting lines that were joined with newlines, none containing one, gives the lines back. */
  lemma {:induction false} LinesOfJoin(ls: seq<string>)
    requires |ls| >= 1
    requires forall i :: 0 <= i < |ls| ==> '\n' !in ls[i]
    ensures Lines(Join(ls)) == ls
  {
    if |ls| == 1 {
      LinesOfOne(ls[0]);
    } else {
      LinesCons(ls[0], Join(ls[1..]));
      LinesOfJoin(ls[1..]);
      assert [ls[0]] + ls[1..] == ls;
    }
  }

  /** The caption is the reply's f-string: the three labelled fields and the attribution, newline-separated. */
  lemma CaptionText(title: string, uploader: string, duration: string)
    ensures Caption(title, uploader, duration) ==
      "🎵 " + title + "\n👤 " + uploader + "\n⏱️ " + duration + "\n" + Attribution
  {
    var l1, l2, l3 := "🎵 " + title, "👤 " + uploader, "⏱️ " + duration;
    var ls := [l1, l2, l3, Attribution];
    assert ls[1..] == [l2, l3, Attribution] && ls[1..][1..] == [l3, Attribution];
    assert ls[1..][1..][1..] == [Attribution];
    var tail := l3 + "\n" + Attribution;
    assert Join(ls[1..][1..]) == tail;
    assert Join(ls[1..]) == l2 + "\n" + tail;
    assert Join(ls) == l1 + "\n" + (l2 + "\n" + tail);
    assert "\n" + l2 == "\n👤 " + uploader;
    assert "\n" + l3 == "\n⏱️ " + duration;
  }

  /**
   * When the title and uploader carry no newline, the caption is exactly
   * four lines: the title line, the uploader line, the duration line and
   * the attribution.
   */
  lemma CaptionLines(title: string, uploader: string, d: nat)
    requires '\n' !in title && '\n' !in uploader
    ensures Lines(Caption(title, uploader, DurationStr(d))) ==
      ["🎵 " + title, "👤 " + uploader, "⏱️ " + DurationStr(d), Attribution]
  {
    var ls := ["🎵 " + title, "👤 " + uploader, "⏱️ " + DurationStr(d), Attribution];
    CaptionLinesFree(title, uploader, d);
    LinesOfJoin(ls);
  }

  /** None of the four caption lines contains a newline. */
  lemma CaptionLinesFree(title: string, uploader: string, d: nat)
    requires '\n' !in title && '\n' !in uploader
    ensures var ls := ["🎵 " + title, "👤 " + uploader, "⏱️ " + DurationStr(d), Attribution];
      forall i :: 0 <= i < |ls| ==> '\n' !in ls[i]
  {
    var dur := DurationStr(d);
    DurationHasNoNewline(d);
    LabelsHaveNoNewline();
    NoNewlineConcat("🎵 ", title);
    NoNewlineConcat("👤 ", uploader);
    NoNewlineConcat("⏱️ ", dur);
  }

  /** The labels of the caption lines and the attribution contain no newline. */
  lemma LabelsHaveNoNewline()
    ensures '\n' !in "🎵 " && '\n' !in "👤 " && '\n' !in "⏱️ " && '\n' !in Attribution
  {
  }

  lemma NoNewlineConcat(a: string, b: string)
    requires '\n' !in a && '\n' !in b
    ensures '\n' !in a + b
  {
  }
}
