/** What a comment is, said character by character: a scanner that moves over a text one
    character at a time. The masker, which jumps from token to token, blanks exactly the
    characters that the scanner finds inside comments. */
module CommentScanners {

  import opened Basics
  import opened Texts
  import opened CommentMasker

  /** Where the scanner is before it reads a character. */
  datatype Scan =
    | Code
    | Line                              // behind the first slash of a line comment
    | Opening                           // at the star that opens a block comment
    | Block(star: bool)                 // star: the character before, in the comment, is one
    | Quoted(quote: char, escaped: bool)
    | Raw(start: nat)                   // in the raw literal that starts there

  predicate Pair(text: string, p: nat, a: char, b: char) {
    p + 1 < |text| && text[p] == a && text[p + 1] == b
  }

  /** At most sixteen characters without white space, parentheses and backslashes. */
  predicate LegalDelimiter(d: string) {
    |d| <= 16 && forall k | 0 <= k < |d| :: !IsSpace(d[k]) && d[k] != '(' && d[k] != ')' && d[k] != '\\'
  }

  lemma LegalIsOk(d: string)
    ensures LegalDelimiter(d) <==> DelimiterOk(d)
  {
    hide IsSpace;
  }

  /** A raw literal with delimiter d opens at p. */
  predicate RawOpens(text: string, p: nat, d: string) {
    LegalDelimiter(d) && MatchesAt(text, "R\"" + d + "(", p)
  }

  function Terminator(d: string): string {
    ")" + d + "\""
  }

  /** The raw literal with delimiter d that opens at p has its terminator at e. */
  predicate RawEnds(text: string, p: nat, d: string, e: nat) {
    p + 3 + |d| <= e && MatchesAt(text, Terminator(d), e)
  }

  ghost predicate RawStarts(text: string, p: nat) {
    exists d, e :: RawOpens(text, p, d) && RawEnds(text, p, d, e)
  }

  /** The terminator of the raw literal that starts at p ends just before q. */
  ghost predicate RawCloses(text: string, p: nat, q: nat) {
    exists d :: RawOpens(text, p, d) && |d| + 2 <= q && RawEnds(text, p, d, q - (|d| + 2))
  }

  /** The scanner reads character p. */
  ghost function Read(text: string, p: nat, scan: Scan): Scan
    requires p < |text|
  {
    match scan
    case Code =>
      if Pair(text, p, '/', '/') then Line
      else if Pair(text, p, '/', '*') then Opening
      else if RawStarts(text, p) then Raw(p)
      else if text[p] == '"' || text[p] == '\'' then Quoted(text[p], false)
      else Code
    case Line => if text[p] == '\n' then Code else Line
    case Opening => Block(false)
    case Block(star) => if star && text[p] == '/' then Code else Block(text[p] == '*')
    case Quoted(quote, escaped) =>
      if escaped then Quoted(quote, false)
      else if text[p] == '\\' then Quoted(quote, true)
      else if text[p] == quote then Code
      else scan
    case Raw(start) => if RawCloses(text, start, p + 1) then Code else scan
  }

  ghost function ScanAt(text: string, p: nat): Scan
    requires p <= |text|
  {
    if p == 0 then Code else Read(text, p - 1, ScanAt(text, p - 1))
  }

  lemma ScanStep(text: string, p: nat)
    requires p < |text|
    ensures ScanAt(text, p + 1) == Read(text, p, ScanAt(text, p))
  {
  }

  /** Character p belongs to a comment. */
  ghost predicate InComment(text: string, p: nat)
    requires p < |text|
  {
    match ScanAt(text, p)
    case Code => Pair(text, p, '/', '/') || Pair(text, p, '/', '*')
    case Line => text[p] != '\n'
    case Opening => true
    case Block(_) => true
    case _ => false
  }

  // ---- one token ----

  /** Outside of comments and literals; the line break behind a line comment is so, too. */
  ghost predicate Outside(text: string, i: nat)
    requires i < |text|
  {
    ScanAt(text, i) == Code || (ScanAt(text, i) == Line && text[i] == '\n')
  }

  /** The scanner agrees with token t at i on each of its characters, and is outside at
      its end. */
  ghost predicate Agrees(text: string, i: nat, t: Token)
    requires t.end <= |text|
  {
    && (forall p | i <= p < t.end :: InComment(text, p) <==> t.Comment?)
    && (t.end < |text| ==> Outside(text, t.end))
  }

  lemma PairMatches(text: string, p: nat, pat: string)
    requires |pat| == 2
    ensures MatchesAt(text, pat, p) <==> Pair(text, p, pat[0], pat[1])
  {
    if Pair(text, p, pat[0], pat[1]) {
      assert text[p..p + 2] == pat;
    }
  }

  lemma CharMatches(text: string, p: nat, pat: string)
    requires |pat| == 1
    ensures MatchesAt(text, pat, p) <==> p < |text| && text[p] == pat[0]
  {
    if p < |text| {
      assert text[p..p + 1] == [text[p]];
    }
  }

  lemma LineFound(text: string, i: nat) returns (end: nat)
    requires Pair(text, i, '/', '/')
    ensures i + 2 <= end <= |text| && TokenAt(text, i) == Comment(end)
    ensures (forall q | i + 2 <= q < end :: text[q] != '\n') && (end < |text| ==> text[end] == '\n')
  {
    PairMatches(text, i, "//");
    var newline := Find(text, "\n", i + 2, |text|);
    end := if newline < 0 then |text| else newline;
    forall q | i + 2 <= q < end ensures text[q] != '\n' {
      CharMatches(text, q, "\n");
    }
    if end < |text| {
      CharMatches(text, end, "\n");
    }
  }

  lemma LineToken(text: string, i: nat)
    requires i < |text| && Outside(text, i) && Pair(text, i, '/', '/')
    ensures Agrees(text, i, TokenAt(text, i))
  {
    hide TokenAt, ScanAt;
    var end := LineFound(text, i);
    forall p | i < p <= end ensures ScanAt(text, p) == Line {
      LineStays(text, i, end, p);
    }
  }

  lemma {:induction false} LineStays(text: string, i: nat, end: nat, p: nat)
    requires i + 1 < end <= |text| && ScanAt(text, i) == Code && Pair(text, i, '/', '/')
    requires forall q | i + 2 <= q < end :: text[q] != '\n'
    requires i < p <= end
    ensures ScanAt(text, p) == Line
  {
    hide ScanAt, RawStarts;
    ScanStep(text, p - 1);
    if p > i + 1 {
      LineStays(text, i, end, p - 1);
    }
  }

  lemma BlockFound(text: string, i: nat) returns (end: nat)
    requires Pair(text, i, '/', '*')
    ensures i + 2 <= end <= |text| && TokenAt(text, i) == Comment(end)
    ensures forall q | i + 2 <= q && q + 2 < end :: !Pair(text, q, '*', '/')
    ensures end < |text| ==> i + 4 <= end && Pair(text, end - 2, '*', '/')
  {
    PairMatches(text, i, "//");
    PairMatches(text, i, "/*");
    var close := Find(text, "*/", i + 2, |text|);
    end := if close < 0 then |text| else close + 2;
    forall q | i + 2 <= q && q + 2 < end ensures !Pair(text, q, '*', '/') {
      PairMatches(text, q, "*/");
    }
    if close >= 0 {
      PairMatches(text, close, "*/");
    }
  }

  lemma BlockToken(text: string, i: nat)
    requires i < |text| && Outside(text, i) && Pair(text, i, '/', '*')
    ensures Agrees(text, i, TokenAt(text, i))
  {
    hide TokenAt, ScanAt;
    var end := BlockFound(text, i);
    forall p | i < p < end ensures ScanAt(text, p).Opening? || ScanAt(text, p).Block? {
      BlockStays(text, i, end, p);
    }
    if end < |text| {
      BlockStays(text, i, end, end - 1);
      ScanStep(text, end - 1);
    }
  }

  /** Inside a block comment, up to the slash that ends it. */
  lemma {:induction false} BlockStays(text: string, i: nat, end: nat, p: nat)
    requires i + 1 < end <= |text| && ScanAt(text, i) == Code && Pair(text, i, '/', '*')
    requires forall q | i + 2 <= q && q + 2 < end :: !Pair(text, q, '*', '/')
    requires i < p < end
    ensures ScanAt(text, p) == if p == i + 1 then Opening else Block(p > i + 2 && text[p - 1] == '*')
  {
    hide ScanAt, RawStarts;
    ScanStep(text, p - 1);
    if p > i + 1 {
      BlockStays(text, i, end, p - 1);
      assert p > i + 3 ==> !Pair(text, p - 2, '*', '/');
    }
  }

  // ---- literals ----

  lemma {:induction false} QuoteToken(text: string, j: nat, quote: char)
    requires 0 < j <= |text| && ScanAt(text, j) == Quoted(quote, false) && quote != '\\'
    ensures forall p | j <= p < QuoteEnd(text, j, quote) && p < |text| :: ScanAt(text, p).Quoted?
    ensures QuoteEnd(text, j, quote) < |text| ==> ScanAt(text, QuoteEnd(text, j, quote)) == Code
    decreases |text| - j
  {
    hide ScanAt, RawStarts;
    if j < |text| {
      ScanStep(text, j);
      if text[j] == '\\' {
        if j + 1 < |text| {
          ScanStep(text, j + 1);
          QuoteToken(text, j + 2, quote);
        }
      } else if text[j] != quote {
        QuoteToken(text, j + 1, quote);
      }
    }
  }

  /** The delimiter is what stands between the quote and the first parenthesis. */
  lemma OpeningFound(text: string, i: nat, d: string)
    requires RawOpens(text, i, d)
    ensures MatchesAt(text, "R\"", i) && i + 2 + |d| < |text| && text[i + 2..i + 2 + |d|] == d
    ensures Find(text, "(", i + 2, Min(i + MAX_LOOKAHEAD, |text|)) == i + 2 + |d|
  {
    LegalIsOk(d);
    var pat, open := "R\"" + d + "(", i + 2 + |d|;
    var piece := text[i..i + |pat|];
    assert piece == pat && open < |text|;
    SliceOfSlice(text, i, i + |pat|, i, i + 2);
    SliceOfSlice(text, i, i + |pat|, i + 2, open);
    assert piece[0..2] == "R\"" && piece[2..2 + |d|] == d && piece[2 + |d|] == '(';
    CharMatches(text, open, "(");
    forall p | i + 2 <= p < open ensures !MatchesAt(text, "(", p) {
      CharMatches(text, p, "(");
      assert text[p] == d[p - (i + 2)];
    }
  }

  /** The masker finds a raw literal exactly where one starts, and its end behind the
      first terminator. */
  lemma RawFound(text: string, i: nat)
    ensures RawEnd(text, i) >= 0 <==> RawStarts(text, i)
    ensures RawEnd(text, i) >= 0 ==>
      && RawEnd(text, i) >= i + 5 && RawCloses(text, i, RawEnd(text, i))
      && forall q | 0 <= q < RawEnd(text, i) :: !RawCloses(text, i, q)
  {
    if RawEnd(text, i) >= 0 {
      RawIsRaw(text, i);
    }
    if RawStarts(text, i) {
      var d, e :| RawOpens(text, i, d) && RawEnds(text, i, d, e);
      OpeningFound(text, i, d);
      hide MatchesAt;
      assert Find(text, Terminator(d), i + 3 + |d|, |text|) >= 0;
    }
  }

  lemma RawParts(text: string, i: nat) returns (d: string, close: nat)
    requires RawEnd(text, i) >= 0
    ensures RawOpens(text, i, d) && RawEnds(text, i, d, close) && RawEnd(text, i) == close + |d| + 2
    ensures close == Find(text, Terminator(d), i + 3 + |d|, |text|)
  {
    var open := Find(text, "(", i + 2, Min(i + MAX_LOOKAHEAD, |text|));
    d := text[i + 2..open];
    close := Find(text, Terminator(d), open + 1, |text|);
    RawOpened(text, i, open);
  }

  lemma RawIsRaw(text: string, i: nat)
    requires RawEnd(text, i) >= 0
    ensures RawStarts(text, i) && RawEnd(text, i) >= i + 5 && RawCloses(text, i, RawEnd(text, i))
    ensures forall q | 0 <= q < RawEnd(text, i) :: !RawCloses(text, i, q)
  {
    hide RawEnd, MatchesAt, DelimiterOk, Terminator, RawOpens;
    var d, close := RawParts(text, i);
    assert close + |d| + 2 - (|d| + 2) == close;
    forall q | 0 <= q < close + |d| + 2 ensures !RawCloses(text, i, q) {
      NoEarlierClose(text, i, d, close, q);
    }
  }

  lemma RawOpened(text: string, i: nat, open: nat)
    requires MatchesAt(text, "R\"", i) && i + 2 <= open < |text| && MatchesAt(text, "(", open)
    requires DelimiterOk(text[i + 2..open])
    ensures RawOpens(text, i, text[i + 2..open])
  {
    LegalIsOk(text[i + 2..open]);
    assert text[i..open + 1] == text[i..i + 2] + text[i + 2..open] + text[open..open + 1];
  }

  lemma NoEarlierClose(text: string, i: nat, d: string, close: nat, q: nat)
    requires RawOpens(text, i, d) && close == Find(text, Terminator(d), i + 3 + |d|, |text|) && q < close + |d| + 2
    ensures !RawCloses(text, i, q)
  {
    OpeningFound(text, i, d);
    if RawCloses(text, i, q) {
      var x :| RawOpens(text, i, x) && |x| + 2 <= q && RawEnds(text, i, x, q - (|x| + 2));
      OpeningFound(text, i, x);
    }
  }

  lemma LiteralAt(text: string, i: nat)
    requires Pair(text, i, 'R', '"') && RawEnd(text, i) >= 0
    ensures TokenAt(text, i) == Literal(RawEnd(text, i))
  {
    hide RawEnd, Find, MatchesAt;
    PairMatches(text, i, "//");
    PairMatches(text, i, "/*");
  }

  lemma RawToken(text: string, i: nat)
    requires i < |text| && Outside(text, i) && RawStarts(text, i)
    ensures Agrees(text, i, TokenAt(text, i))
  {
    hide TokenAt, RawEnd, RawStarts, RawCloses, ScanAt;
    RawFound(text, i);
    StartsWithR(text, i);
    LiteralAt(text, i);
    var end := RawEnd(text, i);
    forall p | i < p < end ensures ScanAt(text, p) == Raw(i) {
      RawStays(text, i, end, p);
    }
    ScanStep(text, end - 1);
  }

  lemma StartsWithR(text: string, i: nat)
    requires RawStarts(text, i)
    ensures Pair(text, i, 'R', '"')
  {
    var d, e :| RawOpens(text, i, d) && RawEnds(text, i, d, e);
    OpeningFound(text, i, d);
    PairMatches(text, i, "R\"");
  }

  lemma {:induction false} RawStays(text: string, i: nat, end: nat, p: nat)
    requires i < p < end <= |text| && ScanAt(text, i) == Code && RawStarts(text, i) && Pair(text, i, 'R', '"')
    requires forall q | 0 <= q < end :: !RawCloses(text, i, q)
    ensures ScanAt(text, p) == Raw(i)
  {
    hide ScanAt, RawStarts, RawCloses;
    ScanStep(text, p - 1);
    if p > i + 1 {
      RawStays(text, i, end, p - 1);
    }
  }

  // ---- the whole text ----

  lemma TokenAgrees(text: string, i: nat)
    requires i < |text| && Outside(text, i)
    ensures Agrees(text, i, TokenAt(text, i))
  {
    PairMatches(text, i, "//");
    PairMatches(text, i, "/*");
    RawFound(text, i);
    ScanStep(text, i);
    hide ScanAt, RawStarts, RawCloses, RawEnd, Find;
    if Pair(text, i, '/', '/') {
      LineToken(text, i);
    } else if Pair(text, i, '/', '*') {
      BlockToken(text, i);
    } else if RawStarts(text, i) {
      StartsWithR(text, i);
      RawToken(text, i);
    } else if text[i] == '"' || text[i] == '\'' {
      QuoteToken(text, i + 1, text[i]);
    }
  }

  /** What the mask shows for character p. */
  ghost function Shown(text: string, p: nat): char
    requires p < |text|
  {
    if InComment(text, p) && !IsLineBreak(text[p]) then ' ' else text[p]
  }

  lemma {:induction false} MaskedFrom(text: string, i: nat, p: nat)
    requires i <= p < |text| && Outside(text, i)
    ensures MaskFrom(text, i)[p - i] == Shown(text, p)
    decreases |text| - i
  {
    hide TokenAt, InComment, Outside;
    var t := TokenAt(text, i);
    TokenAgrees(text, i);
    MaskUnfold(text, i, t);
    if p < t.end {
      assert MaskFrom(text, i)[p - i] == Masked(text, i, t)[p - i];
      assert text[i..t.end][p - i] == text[p];
    } else {
      MaskedFrom(text, t.end, p);
      assert MaskFrom(text, i)[p - i] == MaskFrom(text, t.end)[p - t.end];
    }
  }

  /** For every text: the masker blanks the characters inside comments other than line
      breaks, and keeps all others. */
  lemma MaskHidesComments(text: string)
    ensures forall p | 0 <= p < |text| ::
      Mask(text)[p] == if InComment(text, p) && text[p] != '\r' && text[p] != '\n' then ' ' else text[p]
  {
    forall p | 0 <= p < |text| ensures Mask(text)[p] == Shown(text, p) {
      assert Outside(text, 0);
      MaskedFrom(text, 0, p);
    }
    hide InComment, Mask;
  }
}
