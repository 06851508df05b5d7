/** The line wrapper ConvertStringFromFile (touch_screen/change_chinese_line.cxx): inserts line
    breaks into text of one-byte and three-byte characters so that lines fit a width in pixels. */
module LineWrap {

  type Octet = x: int | 0 <= x < 0x100

  const BREAK: Octet := 10
  const ENGLISH := 12
  const CHINESE := 24

  /** `src[i] & 0x80`. */
  predicate High(b: Octet) {
    b >= 0x80
  }

  // ---------- Text and its lines, with no reference to the wrapper ----------

  /** How many bytes of a three-byte character are open at the end of a text. */
  function Open(text: seq<Octet>): (n: nat)
    ensures n < 3
    decreases |text|
  {
    if text == [] then 0
    else
      var n := Open(text[..|text| - 1]);
      if !High(text[|text| - 1]) then n else if n == 2 then 0 else n + 1
  }

  /** The width a byte adds: that of the character it completes. */
  function Glyph(before: seq<Octet>, b: Octet): nat {
    if b == BREAK then 0
    else if !High(b) then ENGLISH
    else if Open(before) == 2 then CHINESE
    else 0
  }

  /** The width of the last line of a text. */
  function LineWidth(text: seq<Octet>): nat
    decreases |text|
  {
    if text == [] || text[|text| - 1] == BREAK then 0
    else LineWidth(text[..|text| - 1]) + Glyph(text[..|text| - 1], text[|text| - 1])
  }

  /** At no point of the text is the line so far wider than `width`. */
  predicate LinesFit(text: seq<Octet>, width: int)
    decreases |text|
  {
    LineWidth(text) <= width && (text != [] ==> LinesFit(text[..|text| - 1], width))
  }

  predicate GlyphsFit(text: seq<Octet>, width: int)
    decreases |text|
  {
    text != [] ==>
      Glyph(text[..|text| - 1], text[|text| - 1]) <= width && GlyphsFit(text[..|text| - 1], width)
  }

  function Breaks(text: seq<Octet>): nat
    decreases |text|
  {
    if text == [] then 0
    else Breaks(text[..|text| - 1]) + if text[|text| - 1] == BREAK then 1 else 0
  }

  /** `text` is `src` with some line breaks inserted. */
  predicate OnlyBreaksInserted(src: seq<Octet>, text: seq<Octet>)
    decreases |text|
  {
    if text == [] then src == []
    else
      var init, last := text[..|text| - 1], text[|text| - 1];
      || (last == BREAK && OnlyBreaksInserted(src, init))
      || (src != [] && src[|src| - 1] == last && OnlyBreaksInserted(src[..|src| - 1], init))
  }

  // ---------- The wrapper's counters ----------

  /** chineseCharaNum, english12 and chinese24. */
  datatype Counts = Counts(third: nat, ascii: nat, wide: nat)

  function Width(s: Counts): nat {
    s.ascii * ENGLISH + s.wide * CHINESE
  }

  /** The counters after one more byte, before they are reset, and charaStop. */
  function Count(s: Counts, b: Octet): (Counts, bool) {
    if !High(b) then (s.(ascii := s.ascii + 1), true)
    else if s.third + 1 == 3 then (s.(third := 0, wide := s.wide + 1), true)
    else (s.(third := s.third + 1), false)
  }

  function Reset(s: Counts): Counts {
    s.(ascii := 0, wide := 0)
  }

  /** Whether a break is inserted behind `b`. */
  predicate Cuts(s: Counts, b: Octet, width: int) {
    var (s', stop) := Count(s, b);
    b != BREAK && stop && Width(s') + CHINESE > width
  }

  function Next(s: Counts, b: Octet, width: int): Counts {
    var (s', _) := Count(s, b);
    if b == BREAK || Cuts(s, b, width) then Reset(s') else s'
  }

  function Scan(src: seq<Octet>, width: int): Counts
    decreases |src|
  {
    if src == [] then Counts(0, 0, 0)
    else Next(Scan(src[..|src| - 1], width), src[|src| - 1], width)
  }

  /** Whether the last byte of `src` is followed by an inserted break. */
  predicate EndsInCut(src: seq<Octet>, width: int) {
    src != [] && Cuts(Scan(src[..|src| - 1], width), src[|src| - 1], width)
  }

  /** The wrapped text. */
  function Wrapped(src: seq<Octet>, width: int): seq<Octet>
    decreases |src|
  {
    if src == [] then []
    else
      Wrapped(src[..|src| - 1], width) + [src[|src| - 1]] + if EndsInCut(src, width) then [BREAK] else []
  }

  /** The returned number of lines. */
  function Lines(src: seq<Octet>, width: int): nat {
    Breaks(Wrapped(src, width)) + if src == [] || EndsInCut(src, width) then 0 else 1
  }

  // ---------- Appending to a text ----------

  lemma Append(text: seq<Octet>, b: Octet)
    ensures (text + [b])[..|text + [b]| - 1] == text
    ensures Open(text + [b]) == if !High(b) then Open(text) else if Open(text) == 2 then 0 else Open(text) + 1
    ensures LineWidth(text + [b]) == if b == BREAK then 0 else LineWidth(text) + Glyph(text, b)
    ensures Breaks(text + [b]) == Breaks(text) + if b == BREAK then 1 else 0
  {
    assert (text + [b])[..|text + [b]| - 1] == text;
  }

  /** Wrapping one more byte: the byte, and perhaps a break. */
  lemma WrappedStep(init: seq<Octet>, b: Octet, width: int)
    ensures var w := Wrapped(init, width) + [b];
            Wrapped(init + [b], width) == if EndsInCut(init + [b], width) then w + [BREAK] else w
    ensures EndsInCut(init + [b], width) == Cuts(Scan(init, width), b, width)
    ensures Scan(init + [b], width) == Next(Scan(init, width), b, width)
  {
    assert (init + [b])[..|init + [b]| - 1] == init;
  }

  // ---------- What wrapping promises ----------

  /** The wrapped text is the source with nothing but line breaks inserted. */
  lemma {:induction false} WrapOnlyInserts(src: seq<Octet>, width: int)
    ensures OnlyBreaksInserted(src, Wrapped(src, width))
    decreases |src|
  {
    if src != [] {
      var init, b := src[..|src| - 1], src[|src| - 1];
      WrapOnlyInserts(init, width);
      assert src == init + [b];
      WrappedStep(init, b, width);
      var w := Wrapped(init, width) + [b];
      Append(Wrapped(init, width), b);
      assert OnlyBreaksInserted(src, w);
      Append(w, BREAK);
    }
  }

  /** The counters measure the text: open bytes and the width of the last line, which is either
      nothing or leaves room for one more wide character. */
  lemma {:induction false} CountersMeasure(src: seq<Octet>, width: int)
    ensures var s, w := Scan(src, width), Wrapped(src, width);
            && s.third == Open(w) == Open(src)
            && Width(s) == LineWidth(w)
            && (Width(s) == 0 || Width(s) + CHINESE <= width)
    decreases |src|
  {
    hide Wrapped, Scan, EndsInCut, Open, LineWidth;
    if src == [] {
      NothingWrapped(src, width);
      NothingMeasured();
    } else {
      var init, b := src[..|src| - 1], src[|src| - 1];
      CountersMeasure(init, width);
      assert src == init + [b];
      WrappedStep(init, b, width);
      Append(init, b);
      Append(Wrapped(init, width), b);
      Append(Wrapped(init, width) + [b], BREAK);
    }
  }

  lemma NothingMeasured()
    ensures Open([]) == 0 && LineWidth([]) == 0
  {
  }

  lemma {:induction false} NonNegative(text: seq<Octet>, width: int)
    requires LinesFit(text, width)
    ensures width >= 0
    decreases |text|
  {
    if text != [] {
      NonNegative(text[..|text| - 1], width);
    }
  }

  /** Every line of the wrapped text fits exactly when every single character does. With a width of
      24 or more that is always so. */
  lemma {:induction false} LinesFitIffGlyphsFit(src: seq<Octet>, width: int)
    ensures LinesFit(Wrapped(src, width), width) <==> width >= 0 && GlyphsFit(src, width)
    decreases |src|
  {
    if src != [] {
      var init, b := src[..|src| - 1], src[|src| - 1];
      LinesFitIffGlyphsFit(init, width);
      CountersMeasure(init, width);
      assert src == init + [b];
      WrappedStep(init, b, width);
      var w := Wrapped(init, width);
      Append(w, b);
      Append(w + [b], BREAK);
      assert Glyph(w, b) == Glyph(init, b);
      if LinesFit(w + [b], width) {
        NonNegative(w + [b], width);
      }
      assert LinesFit(w + [b], width) <==> LinesFit(w, width) && LineWidth(w + [b]) <= width;
      assert width >= 0 ==> (LinesFit(w + [b] + [BREAK], width) <==> LinesFit(w + [b], width));
    }
  }

  lemma WideEnoughAlwaysFits(src: seq<Octet>, width: int)
    requires width >= CHINESE
    ensures LinesFit(Wrapped(src, width), width)
  {
    LinesFitIffGlyphsFit(src, width);
    GlyphsAreNarrow(src, width);
  }

  lemma {:induction false} GlyphsAreNarrow(src: seq<Octet>, width: int)
    requires width >= CHINESE
    ensures GlyphsFit(src, width)
    decreases |src|
  {
    if src != [] {
      GlyphsAreNarrow(src[..|src| - 1], width);
    }
  }

  /** No one-byte character, and so no line break, stands inside a three-byte one. */
  predicate WellFormed(src: seq<Octet>)
    decreases |src|
  {
    src != [] ==>
      (!High(src[|src| - 1]) ==> Open(src[..|src| - 1]) == 0) && WellFormed(src[..|src| - 1])
  }

  /** A break is inserted exactly behind a whole character, not itself a break, that leaves its line no
      room for one more wide character. */
  lemma BreaksExactlyWhereRoomEnds(src: seq<Octet>, width: int)
    requires src != []
    ensures var init, b := src[..|src| - 1], src[|src| - 1];
            Wrapped(src, width) ==
              if b != BREAK && (!High(b) || Open(src) == 0) && LineWidth(Wrapped(init, width) + [b]) + 24 > width
              then Wrapped(init, width) + [b, BREAK]
              else Wrapped(init, width) + [b]
  {
    var init, b := src[..|src| - 1], src[|src| - 1];
    assert src == init + [b];
    CountersMeasure(init, width);
    hide Wrapped, Scan, LineWidth;
    Append(init, b);
    Append(Wrapped(init, width), b);
    WrappedStep(init, b, width);
    assert Wrapped(init, width) + [b] + [BREAK] == Wrapped(init, width) + [b, BREAK];
  }

  /** An inserted break always stands behind a whole character. */
  lemma BreaksFollowCharacters(src: seq<Octet>, width: int)
    requires EndsInCut(src, width)
    ensures !High(src[|src| - 1]) || Open(src) == 0
  {
    CountersMeasure(src[..|src| - 1], width);
  }

  /** In the wrapped form of well-formed text no line break, inserted or not, splits a character. */
  lemma {:induction false} NoCharacterIsSplit(src: seq<Octet>, width: int)
    requires WellFormed(src)
    ensures WellFormed(Wrapped(src, width))
    decreases |src|
  {
    hide Wrapped, Scan, EndsInCut, Open, Cuts, Next, LineWidth, Glyph, WellFormed;
    if src == [] {
      NothingWrapped(src, width);
    } else {
      var init, b := src[..|src| - 1], src[|src| - 1];
      var w := Wrapped(init, width);
      assert src == init + [b];
      OneMoreCharacter(init, b);
      NoCharacterIsSplit(init, width);
      CountersMeasure(init, width);
      CountersMeasure(src, width);
      WrappedStep(init, b, width);
      OneMoreCharacter(w, b);
      OneMoreCharacter(w + [b], BREAK);
      Append(w, b);
      if EndsInCut(src, width) {
        BreaksFollowCharacters(src, width);
        Append(init, b);
      }
    }
  }

  lemma OneMoreCharacter(text: seq<Octet>, b: Octet)
    ensures WellFormed(text + [b]) <==> WellFormed(text) && (!High(b) ==> Open(text) == 0)
    ensures WellFormed([])
  {
    hide Open;
    assert (text + [b])[..|text + [b]| - 1] == text;
  }

  /** The returned count is the number of breaks plus one for a last line that is not empty, except
      for sources that end in a line break: these count one more. */
  lemma LinesCountsLastLine(src: seq<Octet>, width: int)
    ensures var w := Wrapped(src, width);
            var expected := Breaks(w) + if w == [] || w[|w| - 1] == BREAK then 0 else 1;
            && (Lines(src, width) == expected <==> src == [] || src[|src| - 1] != BREAK)
            && expected <= Lines(src, width) <= expected + 1
  {
  }

  // ---------- The wrapper as written ----------

  lemma {:induction false} WrappingPrefixIsShorter(src: seq<Octet>, i: nat, width: int)
    requires i <= |src|
    ensures |Wrapped(src[..i], width)| <= |Wrapped(src, width)|
    decreases |src|
  {
    if i < |src| {
      var init := src[..|src| - 1];
      assert init[..i] == src[..i];
      WrappingPrefixIsShorter(init, i, width);
    } else {
      assert src[..i] == src;
    }
  }

  /** The copying loop: bytes [from, from + count) of the source go `shift` places further. */
  method CopyShifted(dest: array<Octet>, src: seq<Octet>, from: nat, count: nat, shift: nat) returns (c: nat)
    requires from + count <= |src| && from + count + shift <= dest.Length
    modifies dest
    ensures c == from + count
    ensures dest[..c + shift] == old(dest[..from + shift]) + src[from..c]
    ensures dest[c + shift..] == old(dest[c + shift..])
  {
    c := from;
    while c < from + count
      invariant from <= c <= from + count
      invariant dest[..c + shift] == old(dest[..from + shift]) + src[from..c]
      invariant dest[c + shift..] == old(dest[c + shift..])
    {
      dest[c + shift] := src[c];
      c := c + 1;
    }
  }

  /** Whatever stood in `dest` is blanked up to its terminator. */
  method Blank(dest: array<Octet>)
    requires 0 in dest[..]
    modifies dest
  {
    var i := 0;
    while dest[i] != 0
      invariant 0 <= i <= dest.Length && 0 in dest[i..]
      decreases dest.Length - i
    {
      dest[i] := 32;
      i := i + 1;
    }
  }

  /** The first `i` bytes are wrapped; of them `flushed` bytes are already out, with `added` breaks. */
  ghost predicate Pending(src: seq<Octet>, i: nat, flushed: nat, added: nat, width: int) {
    && flushed <= i <= |src|
    && |Wrapped(src[..flushed], width)| == flushed + added
    && Wrapped(src[..i], width) == Wrapped(src[..flushed], width) + src[flushed..i]
  }

  /** One more byte of `src` behind its first `i`. */
  lemma PrefixStep(src: seq<Octet>, i: nat, width: int)
    requires i < |src|
    ensures var s, w := Scan(src[..i], width), Wrapped(src[..i], width);
            var cut := Cuts(s, src[i], width);
            && s.third < 3 && Scan(src[..i + 1], width) == Next(s, src[i], width)
            && EndsInCut(src[..i + 1], width) == cut
            && Wrapped(src[..i + 1], width) == w + (if cut then [src[i], BREAK] else [src[i]])
            && Breaks(Wrapped(src[..i + 1], width)) == Breaks(w) + (if cut || src[i] == BREAK then 1 else 0)
    ensures |Wrapped(src[..i + 1], width)| <= |Wrapped(src, width)|
  {
    var before, b := src[..i], src[i];
    var w := Wrapped(before, width);
    assert src[..i + 1] == before + [b];
    assert w + [b] + [BREAK] == w + [b, BREAK];
    WrappedStep(before, b, width);
    WrappingPrefixIsShorter(src, i + 1, width);
    CountersMeasure(before, width);
    hide Wrapped, Scan, EndsInCut;
    Append(w, b);
    Append(w + [b], BREAK);
  }

  lemma PendingStep(src: seq<Octet>, i: nat, flushed: nat, added: nat, width: int)
    requires i < |src| && Pending(src, i, flushed, added, width)
    ensures if Cuts(Scan(src[..i], width), src[i], width) then
              && Pending(src, i + 1, i + 1, added + 1, width)
              && Wrapped(src[..i + 1], width) == Wrapped(src[..flushed], width) + src[flushed..i + 1] + [BREAK]
            else Pending(src, i + 1, flushed, added, width)
  {
    PrefixStep(src, i, width);
    hide Wrapped, Scan, EndsInCut, Cuts, Breaks, Open, Next;
    Regroup(src, flushed, i, Wrapped(src[..flushed], width), Wrapped(src[..i], width), BREAK);
  }

  lemma Regroup<T>(src: seq<T>, from: nat, i: nat, before: seq<T>, all: seq<T>, last: T)
    requires from <= i < |src| && all == before + src[from..i]
    ensures all + [src[i]] == before + src[from..i + 1]
    ensures all + [src[i], last] == before + src[from..i + 1] + [last]
    ensures forall s: seq<T> {:trigger s + src[i + 1..i + 1]} :: s + src[i + 1..i + 1] == s
  {
    assert src[from..i + 1] == src[from..i] + [src[i]];
  }

  lemma PendingLengths(src: seq<Octet>, i: nat, flushed: nat, added: nat, width: int)
    requires Pending(src, i, flushed, added, width)
    ensures flushed <= i <= |src| && |Wrapped(src[..flushed], width)| == flushed + added
    ensures |Wrapped(src[..i], width)| == i + added
  {
    hide Wrapped;
  }

  lemma PendingText(src: seq<Octet>, flushed: nat, added: nat, width: int)
    requires Pending(src, |src|, flushed, added, width)
    ensures Wrapped(src, width) == Wrapped(src[..flushed], width) + src[flushed..]
  {
    hide Wrapped;
    assert src[..|src|] == src && src[flushed..|src|] == src[flushed..];
  }

  lemma NothingWrapped(src: seq<Octet>, width: int)
    ensures src[..0] == [] && Pending(src, 0, 0, 0, width)
    ensures Scan([], width) == Counts(0, 0, 0) && Wrapped([], width) == [] && Breaks([]) == 0
  {
  }

  /** The counters over one byte. */
  method CountByte(b: Octet, third: nat, ascii: nat, wide: nat, ghost width: int)
    returns (third': nat, ascii': nat, wide': nat, charaStop: bool)
    requires third < 3
    ensures var s := Counts(third, ascii, wide);
            var cuts := b != BREAK && charaStop && ascii' * ENGLISH + wide' * CHINESE + CHINESE > width;
            && Cuts(s, b, width) == cuts
            && Next(s, b, width) == if b == BREAK || cuts then Counts(third', 0, 0) else Counts(third', ascii', wide')
  {
    third', ascii', wide' := third, ascii, wide;
    if High(b) {
      third' := third' + 1;
      charaStop := false;
      if third' == 3 {
        third' := 0;
        charaStop := true;
        wide' := wide' + 1;
      }
    } else {
      charaStop := true;
      ascii' := ascii' + 1;
    }
  }

  /** Copies what is pending and puts a break or the terminator behind it; the place of a break is never
      0, so the source's guard for that always holds. */
  method Flush(dest: array<Octet>, src: seq<Octet>, from: nat, count: nat, shift: nat, last: Octet)
    requires from + count <= |src| && from + count + shift < dest.Length
    modifies dest
    ensures dest[..from + count + shift + 1] == old(dest[..from + shift]) + src[from..from + count] + [last]
  {
    var c := CopyShifted(dest, src, from, count, shift);
    ghost var out := dest[..c + shift];
    dest[c + shift] := last;
    assert dest[..c + shift + 1] == out + [last];
  }

  lemma Terminated(d: seq<Octet>, w: seq<Octet>)
    requires |w| < |d| && d[..|w| + 1] == w + [0]
    ensures d[..|w|] == w && d[|w|] == 0
  {
    assert d[..|w|] == d[..|w| + 1][..|w|] && d[|w|] == d[..|w| + 1][|w|];
  }

  lemma LinesAre(src: seq<Octet>, width: int)
    ensures Lines(src, width) == Breaks(Wrapped(src, width)) + if src == [] || EndsInCut(src, width) then 0 else 1
  {
  }

  /** ConvertStringFromFile. `src` is the text without its terminator. */
  method Convert(dest: array<Octet>, src: seq<Octet>, width: int) returns (lines: int)
    requires 0 in dest[..] && 0 !in src
    requires |Wrapped(src, width)| + 1 <= dest.Length
    modifies dest
    ensures var w := Wrapped(src, width);
            && dest[..|w|] == w && dest[|w|] == 0
            && lines == Lines(src, width)
  {
    hide Wrapped, Scan, Breaks, EndsInCut, Open, Glyph, LineWidth, Pending, Count, Cuts, Next, Width, Lines;
    LinesAre(src, width);
    var newLine: nat, stopLength: nat, currentLength: nat := 0, 0, 0;
    var chineseCharaNum: nat, english12: nat, chinese24: nat, allLineNum: nat := 0, 0, 0, 0;
    Blank(dest);
    var i: nat := 0;
    NothingWrapped(src, width);
    while i < |src|
      invariant currentLength + stopLength == i <= |src| && currentLength + newLine < dest.Length
      invariant Pending(src, i, currentLength, newLine, width)
      invariant |Wrapped(src[..i], width)| <= |Wrapped(src, width)|
      invariant dest[..currentLength + newLine] == Wrapped(src[..currentLength], width)
      invariant Counts(chineseCharaNum, english12, chinese24) == Scan(src[..i], width)
      invariant allLineNum == Breaks(Wrapped(src[..i], width))
      invariant stopLength == 0 <==> i == 0 || EndsInCut(src[..i], width)
    {
      PrefixStep(src, i, width);
      PendingStep(src, i, currentLength, newLine, width);
      PendingLengths(src, i, currentLength, newLine, width);
      var charaStop;
      chineseCharaNum, english12, chinese24, charaStop :=
        CountByte(src[i], chineseCharaNum, english12, chinese24, width);
      stopLength := stopLength + 1;
      i := i + 1;
      if src[i - 1] == BREAK {
        allLineNum := allLineNum + 1;
        english12 := 0;
        chinese24 := 0;
        continue;
      }
      if english12 * ENGLISH + chinese24 * CHINESE + CHINESE > width && charaStop {
        english12 := 0;
        chinese24 := 0;
        PendingLengths(src, i, i, newLine + 1, width);
        Flush(dest, src, currentLength, stopLength, newLine, BREAK);
        newLine := newLine + 1;
        currentLength := stopLength + currentLength;
        allLineNum := allLineNum + 1;
        stopLength := 0;
      }
    }
    assert src[..i] == src && src[currentLength..i] == src[currentLength..];
    PendingLengths(src, i, currentLength, newLine, width);
    PendingText(src, currentLength, newLine, width);
    Flush(dest, src, currentLength, stopLength, newLine, 0);
    Terminated(dest[..], Wrapped(src, width));
    lines := if stopLength == 0 then allLineNum else allLineNum + 1;
  }
}
