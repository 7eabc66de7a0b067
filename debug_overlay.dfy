/**
 * The text lines of the debug overlay (the second draw callback registered in
 * DetectorActivity.onPreviewSizeChosen): the detector's stat string split into lines,
 * an empty line, then five diagnostic lines. Drawing them is left to the canvas.
 */
module DebugOverlay {
  import opened Types

  /**
   * `s.split("\n".toRegex())`: the pieces between newlines, including empty ones, so a
   * string with n newlines has n + 1 pieces (the empty string gives one empty piece).
   */
  function SplitLines(s: string): (pieces: seq<string>)
    ensures |pieces| >= 1
    ensures forall k :: 0 <= k < |pieces| ==> '\n' !in pieces[k]
    decreases |s|
  {
    if s == [] then [""]
    else
      var init := SplitLines(s[..|s| - 1]);
      var c := s[|s| - 1];
      if c == '\n' then init + [""]
      else init[..|init| - 1] + [init[|init| - 1] + [c]]
  }

  /** The pieces put back together with a newline between each two. */
  function JoinLines(pieces: seq<string>): (joined: string)
    decreases |pieces|
  {
    if pieces == [] then ""
    else if |pieces| == 1 then pieces[0]
    else JoinLines(pieces[..|pieces| - 1]) + "\n" + pieces[|pieces| - 1]
  }

  /** Splitting loses nothing: joining the pieces gives the string back. */
  lemma {:induction false} JoinSplitLines(s: string)
    ensures JoinLines(SplitLines(s)) == s
    decreases |s|
  {
    if s != [] {
      var init := SplitLines(s[..|s| - 1]);
      var c := s[|s| - 1];
      JoinSplitLines(s[..|s| - 1]);
      if c == '\n' {
        assert (init + [""])[..|init|] == init;
      } else {
        var n := |init|;
        var pieces := init[..n - 1] + [init[n - 1] + [c]];
        if n > 1 {
          assert pieces[..n - 1] == init[..n - 1];
          assert init[..n - 1][..n - 2] == init[..n - 2];
        }
      }
      assert s == s[..|s| - 1] + [c];
    }
  }

  /** Splitting the join of newline-free pieces gives the pieces back. */
  lemma {:induction false} SplitJoinLines(pieces: seq<string>)
    requires |pieces| >= 1
    requires forall k :: 0 <= k < |pieces| ==> '\n' !in pieces[k]
    ensures SplitLines(JoinLines(pieces)) == pieces
    decreases |pieces|
  {
    if |pieces| == 1 {
      SplitNoNewline(pieces[0]);
    } else {
      var init := pieces[..|pieces| - 1];
      SplitJoinLines(init);
      SplitAppend(JoinLines(init), pieces[|pieces| - 1]);
      assert JoinLines(pieces) == JoinLines(init) + "\n" + pieces[|pieces| - 1];
      assert (JoinLines(init) + "\n") + pieces[|pieces| - 1] == JoinLines(init) + "\n" + pieces[|pieces| - 1];
      assert init + [pieces[|pieces| - 1]] == pieces;
    }
  }

  lemma {:induction false} SplitNoNewline(s: string)
    requires '\n' !in s
    ensures SplitLines(s) == [s]
    decreases |s|
  {
    if s != [] {
      SplitNoNewline(s[..|s| - 1]);
      assert s[..|s| - 1] + [s[|s| - 1]] == s;
    }
  }

  /** Appending a newline and a newline-free tail adds one piece. */
  lemma {:induction false} SplitAppend(s: string, tail: string)
    requires '\n' !in tail
    ensures SplitLines(s + "\n" + tail) == SplitLines(s) + [tail]
    decreases |tail|
  {
    if tail == [] {
      assert s + "\n" + tail == s + "\n";
      assert (s + "\n")[..|s|] == s;
    } else {
      var t' := tail[..|tail| - 1];
      SplitAppend(s, t');
      var u := s + "\n" + tail;
      assert u[..|u| - 1] == s + "\n" + t';
      assert u[|u| - 1] == tail[|tail| - 1];
      var init := SplitLines(s) + [t'];
      assert init[..|init| - 1] == SplitLines(s);
      assert t' + [tail[|tail| - 1]] == tail;
    }
  }

  /** `dropLastWhile { it.isEmpty() }`. */
  function DropTrailingEmpty(pieces: seq<string>): (kept: seq<string>)
    ensures |kept| <= |pieces| && kept == pieces[..|kept|]
    ensures kept == [] || kept[|kept| - 1] != ""
    ensures forall k :: |kept| <= k < |pieces| ==> pieces[k] == ""
    decreases |pieces|
  {
    if pieces != [] && pieces[|pieces| - 1] == "" then DropTrailingEmpty(pieces[..|pieces| - 1])
    else pieces
  }

  /** The stat string's lines, as the overlay shows them. */
  function StatLines(stat: string): (lines: seq<string>) {
    DropTrailingEmpty(SplitLines(stat))
  }

  /** The string without the newlines at its end. */
  function TrimTrailingNewlines(s: string): (t: string)
    ensures |t| <= |s| && t == s[..|t|] && (t == [] || t[|t| - 1] != '\n')
    ensures forall k :: |t| <= k < |s| ==> s[k] == '\n'
    decreases |s|
  {
    if s != [] && s[|s| - 1] == '\n' then
      var t := TrimTrailingNewlines(s[..|s| - 1]);
      assert s[..|s| - 1][..|t|] == s[..|t|];
      t
    else s
  }

  /**
   * The stat lines are the stat string, without its trailing newlines, cut at every
   * newline: none holds a newline, the last is not empty, and joined they give the
   * trimmed string back.
   */
  lemma {:induction false} StatLinesAreTrimmedStat(stat: string)
    ensures JoinLines(StatLines(stat)) == TrimTrailingNewlines(stat)
    ensures forall k :: 0 <= k < |StatLines(stat)| ==> '\n' !in StatLines(stat)[k]
    ensures StatLines(stat) == [] || StatLines(stat)[|StatLines(stat)| - 1] != ""
    decreases |stat|
  {
    var pieces := SplitLines(stat);
    var kept := StatLines(stat);
    assert forall k :: 0 <= k < |kept| ==> kept[k] == pieces[k];
    if stat == [] {
    } else if stat[|stat| - 1] == '\n' {
      var init := stat[..|stat| - 1];
      StatLinesAreTrimmedStat(init);
      assert pieces == SplitLines(init) + [""];
      assert pieces[..|pieces| - 1] == SplitLines(init);
    } else {
      LastPieceNotEmpty(stat);
      JoinSplitLines(stat);
    }
  }

  lemma LastPieceNotEmpty(s: string)
    requires s != [] && s[|s| - 1] != '\n'
    ensures SplitLines(s)[|SplitLines(s)| - 1] != ""
  {
    var init := SplitLines(s[..|s| - 1]);
    assert SplitLines(s)[|SplitLines(s)| - 1] == init[|init| - 1] + [s[|s| - 1]];
  }

  // ----- numbers as Kotlin prints them -----

  function DigitChar(d: int): (ch: char)
    requires 0 <= d < 10
  {
    "0123456789"[d]
  }

  function DigitValue(c: char): (v: int) {
    c as int - '0' as int
  }

  predicate IsDigits(s: string) {
    |s| >= 1 && forall k :: 0 <= k < |s| ==> '0' <= s[k] <= '9'
  }

  /** The decimal digits of a natural number. */
  function Digits(n: nat): (digits: string)
    decreases n
  {
    if n < 10 then [DigitChar(n)] else Digits(n / 10) + [DigitChar(n % 10)]
  }

  /** Digits gives a non-empty digit string without a leading zero (except for 0 itself). */
  lemma {:induction false} DigitsAreDigits(n: nat)
    ensures IsDigits(Digits(n)) && (Digits(n)[0] == '0' ==> n == 0)
    decreases n
  {
    if n >= 10 {
      DigitsAreDigits(n / 10);
      assert Digits(n)[0] == Digits(n / 10)[0];
    }
  }

  function ParseDigits(s: string): (n: int)
    requires IsDigits(s)
    decreases |s|
  {
    if |s| == 1 then DigitValue(s[0])
    else 10 * ParseDigits(s[..|s| - 1]) + DigitValue(s[|s| - 1])
  }

  lemma {:induction false} ParseDigitsOfDigits(n: nat)
    ensures IsDigits(Digits(n)) && ParseDigits(Digits(n)) == n
    decreases n
  {
    DigitsAreDigits(n);
    if n >= 10 {
      ParseDigitsOfDigits(n / 10);
      var s := Digits(n);
      assert s[..|s| - 1] == Digits(n / 10);
    }
  }

  /** `Int.toString` / `Long.toString`: an optional minus sign, then the digits. */
  function DecimalString(n: int): (text: string) {
    if n < 0 then "-" + Digits(-n) else Digits(n)
  }

  /** An optional minus sign followed by at least one digit. */
  predicate IsDecimal(s: string) {
    (|s| >= 2 && s[0] == '-' && IsDigits(s[1..])) || IsDigits(s)
  }

  function ParseDecimal(s: string): (n: int)
    requires IsDecimal(s)
  {
    if s[0] == '-' then -ParseDigits(s[1..]) else ParseDigits(s)
  }

  /** A number printed as text reads back as the same number, and has a minus sign exactly when it is negative. */
  lemma DecimalRoundTrip(n: int)
    ensures IsDecimal(DecimalString(n))
    ensures ParseDecimal(DecimalString(n)) == n
    ensures DecimalString(n)[0] == '-' <==> n < 0
  {
    if n < 0 {
      var d := Digits(-n);
      ParseDigitsOfDigits(-n);
      assert DecimalString(n) == "-" + d;
      assert ("-" + d)[1..] == d;
    } else {
      ParseDigitsOfDigits(n);
      assert DecimalString(n) == Digits(n);
      assert '0' <= Digits(n)[0] <= '9';
    }
  }

  // ----- the overlay text -----

  /** "Frame: 640x480"-style dimension text. */
  function Dimensions(size: Size): (text: string) {
    DecimalString(size.width) + "x" + DecimalString(size.height)
  }

  /** The five diagnostic lines that follow the stat lines and the empty line. */
  function DiagnosticLines(preview: Size, crop: Size, view: Size, rotation: int, lastProcessingTimeMs: int): (lines: seq<string>) {
    [ "Frame: " + Dimensions(preview),
      "Crop: " + Dimensions(crop),
      "View: " + Dimensions(view),
      "Rotation: " + DecimalString(rotation),
      "Inference time: " + DecimalString(lastProcessingTimeMs) + "ms" ]
  }

  /** The overlay's lines: the stat lines, an empty separator line, then the diagnostics. */
  function Assemble(statLines: seq<string>, diagnostics: seq<string>): (lines: seq<string>) {
    statLines + [""] + diagnostics
  }

  lemma AssembleParts(statLines: seq<string>, diagnostics: seq<string>)
    ensures var ls := Assemble(statLines, diagnostics);
      |ls| == |statLines| + 1 + |diagnostics| && ls[..|statLines|] == statLines &&
      ls[|statLines|] == "" && ls[|statLines| + 1..] == diagnostics
  {
    var ls := Assemble(statLines, diagnostics);
    assert ls == statLines + ([""] + diagnostics);
  }

  /**
   * The lines the debug draw callback passes to `drawLines`, or None when it returns
   * early: when debug is off, or before the first job has made `cropCopyBitmap`.
   * `stat` is the detector's stat string, None when there is no detector.
   */
  function DebugLines(isDebug: bool, cropCopy: Option<Size>, stat: Option<string>,
                      preview: Size, view: Size, rotation: int, lastProcessingTimeMs: int): (lines: Option<seq<string>>)
  {
    if !isDebug || cropCopy.None? then None
    else
      var statLines := if stat.Some? then StatLines(stat.value) else [];
      Some(Assemble(statLines, DiagnosticLines(preview, cropCopy.value, view, rotation, lastProcessingTimeMs)))
  }

  /**
   * The layout of the overlay text: lines are drawn exactly when debug is on and a crop
   * copy exists; then the detector's stat lines come first (none when there is no
   * detector), then one empty line, then the five diagnostic lines: Frame, Crop, View,
   * Rotation and Inference time. Read back, the lines before the empty one are the stat
   * string itself: joined with newlines they give it back without its trailing newlines,
   * none holds a newline, and the last is not empty.
   */
  lemma DebugLinesLayout(isDebug: bool, cropCopy: Option<Size>, stat: Option<string>,
                         preview: Size, view: Size, rotation: int, lastProcessingTimeMs: int)
    ensures var lines := DebugLines(isDebug, cropCopy, stat, preview, view, rotation, lastProcessingTimeMs);
      lines.Some? <==> isDebug && cropCopy.Some?
    ensures var lines := DebugLines(isDebug, cropCopy, stat, preview, view, rotation, lastProcessingTimeMs);
      lines.Some? ==>
        var ls := lines.value;
        var k := |ls| - 6;
        k >= 0 &&
        ls[..k] == (if stat.Some? then StatLines(stat.value) else []) &&
        ls[k] == "" &&
        ls[k + 1..] == DiagnosticLines(preview, cropCopy.value, view, rotation, lastProcessingTimeMs)
    ensures var lines := DebugLines(isDebug, cropCopy, stat, preview, view, rotation, lastProcessingTimeMs);
      lines.Some? && stat.Some? ==>
        var ls := lines.value;
        var k := |ls| - 6;
        k >= 0 &&
        JoinLines(ls[..k]) == TrimTrailingNewlines(stat.value) &&
        (forall j :: 0 <= j < k ==> '\n' !in ls[j]) &&
        (k == 0 || ls[k - 1] != "")
  {
    if isDebug && cropCopy.Some? {
      var statLines := if stat.Some? then StatLines(stat.value) else [];
      var diagnostics := DiagnosticLines(preview, cropCopy.value, view, rotation, lastProcessingTimeMs);
      AssembleParts(statLines, diagnostics);
      if stat.Some? {
        StatLinesAreTrimmedStat(stat.value);
        var ls := Assemble(statLines, diagnostics);
        assert forall j :: 0 <= j < |statLines| ==> ls[j] == statLines[j];
      }
    }
  }
}
