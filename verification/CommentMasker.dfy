/** The comment masker of the documentation generator: it blanks C++ comments and leaves
    every other character, in particular string and raw string literals, in place. */
module CommentMasker {

  import opened Basics
  import opened Texts

  /** What the regular expression class \s matches. */
  predicate IsSpace(c: char) {
    var n := c as int;
    || 0x09 <= n <= 0x0d || 0x1c <= n <= 0x20 || n == 0x85 || n == 0xa0 || n == 0x1680
    || 0x2000 <= n <= 0x200a || n == 0x2028 || n == 0x2029 || n == 0x202f || n == 0x205f || n == 0x3000
  }

  predicate DelimiterOk(d: string) {
    |d| <= 16 && forall i | 0 <= i < |d| :: !IsSpace(d[i]) && d[i] != '(' && d[i] != ')' && d[i] != '\\'
  }

  const MAX_LOOKAHEAD: nat := 20

  /** The end of the raw string literal that starts at i, or -1 if there is none. */
  function RawEnd(text: string, i: nat): (r: int)
    ensures r == -1 || i < r <= |text|
  {
    if !MatchesAt(text, "R\"", i) then -1
    else
      var open := Find(text, "(", i + 2, Min(i + MAX_LOOKAHEAD, |text|));
      if open < 0 || !DelimiterOk(text[i + 2..open]) then -1
      else
        var terminator := ")" + text[i + 2..open] + "\"";
        var close := Find(text, terminator, open + 1, |text|);
        if close < 0 then -1 else close + |terminator|
  }

  /** Where a scan for the closing quote that is at j ends; an escape at the very end
      takes it one past the text. */
  function QuoteEnd(text: string, j: nat, quote: char): (r: nat)
    ensures j <= r
    decreases |text| - j
  {
    if j >= |text| then j
    else if text[j] == '\\' then QuoteEnd(text, j + 2, quote)
    else if text[j] == quote then j + 1
    else QuoteEnd(text, j + 1, quote)
  }

  datatype Token = Comment(end: nat) | Literal(end: nat) | Plain(end: nat)

  /** The token that starts at i. */
  function TokenAt(text: string, i: nat): (t: Token)
    requires i < |text|
    ensures i < t.end <= |text|
  {
    if MatchesAt(text, "//", i) then
      var newline := Find(text, "\n", i + 2, |text|);
      Comment(if newline < 0 then |text| else newline)
    else if MatchesAt(text, "/*", i) then
      var close := Find(text, "*/", i + 2, |text|);
      Comment(if close < 0 then |text| else close + 2)
    else if RawEnd(text, i) >= 0 then Literal(RawEnd(text, i))
    else if text[i] == '"' || text[i] == '\'' then Literal(Min(QuoteEnd(text, i + 1, text[i]), |text|))
    else Plain(i + 1)
  }

  predicate IsLineBreak(c: char) {
    c == '\r' || c == '\n'
  }

  function Blank(s: string): (r: string)
    ensures |r| == |s| && forall p | 0 <= p < |s| :: r[p] == if IsLineBreak(s[p]) then s[p] else ' '
  {
    seq(|s|, p requires 0 <= p < |s| => if IsLineBreak(s[p]) then s[p] else ' ')
  }

  function Masked(text: string, i: nat, t: Token): string
    requires i <= t.end <= |text|
  {
    if t.Comment? then Blank(text[i..t.end]) else text[i..t.end]
  }

  /** The text from i on with its comments blanked, i being the start of a token. */
  function MaskFrom(text: string, i: nat): (r: string)
    requires i <= |text|
    ensures |r| == |text| - i
    decreases |text| - i
  {
    if i == |text| then ""
    else
      var t := TokenAt(text, i);
      Masked(text, i, t) + MaskFrom(text, t.end)
  }

  function Mask(text: string): (r: string)
    ensures |r| == |text|
  {
    MaskFrom(text, 0)
  }

  // ---- the loop ----

  method Hide(masked: array<char>, start: nat, end: nat)
    requires start <= end <= masked.Length
    modifies masked
    ensures masked[..] == old(masked[..start]) + Blank(old(masked[start..end])) + old(masked[end..])
  {
    for position := start to end
      invariant forall p | 0 <= p < masked.Length ::
        masked[p] == if start <= p < position && !IsLineBreak(old(masked[p])) then ' ' else old(masked[p])
    {
      if !IsLineBreak(masked[position]) {
        masked[position] := ' ';
      }
    }
  }

  /** Advances over a quoted literal whose opening quote is just before index. */
  method SkipQuoted(text: string, start: nat, quote: char) returns (index: nat)
    ensures index == QuoteEnd(text, start, quote)
  {
    index := start;
    while index < |text|
      invariant QuoteEnd(text, index, quote) == QuoteEnd(text, start, quote)
    {
      if text[index] == '\\' {
        index := index + 2;
        continue;
      }
      if text[index] == quote {
        index := index + 1;
        return;
      }
      index := index + 1;
    }
  }

  /** The first index characters are masked, the rest is still the text. */
  ghost predicate Progress(text: string, masked: string, index: nat) {
    var i := Min(index, |text|);
    |masked| == |text| && masked[..i] + MaskFrom(text, i) == Mask(text) && masked[i..] == text[i..]
  }

  lemma SuffixesAgree(a: string, b: string, i: nat, e: nat)
    requires i <= e <= |a| == |b| && a[i..] == b[i..]
    ensures a[i..e] == b[i..e] && a[e..] == b[e..]
  {
    assert a[i..e] == a[i..][..e - i];
    assert b[i..e] == b[i..][..e - i];
    assert a[e..] == a[i..][e - i..];
    assert b[e..] == b[i..][e - i..];
  }

  /** Replacing masked[i..e] by piece takes the first piece of what was to come. */
  lemma Splice(text: string, masked: string, i: nat, e: nat, piece: string, rest: string, whole: string, next: string)
    requires i <= e <= |text| == |masked| && masked[i..] == text[i..] && |piece| == e - i
    requires masked[..i] + (piece + rest) == whole
    requires next == masked[..i] + piece + masked[e..]
    ensures |next| == |text| && next[..e] + rest == whole && next[e..] == text[e..]
  {
    SuffixesAgree(masked, text, i, e);
    assert next[..e] == masked[..i] + piece && next[e..] == masked[e..];
    assert (masked[..i] + piece) + rest == masked[..i] + (piece + rest);
  }

  lemma Advance(text: string, masked: string, index: nat, t: Token, piece: string, next: string)
    requires index < |text| && Progress(text, masked, index) && t == TokenAt(text, index)
    requires piece == if t.Comment? then Blank(masked[index..t.end]) else masked[index..t.end]
    requires next == masked[..index] + piece + masked[t.end..]
    ensures Progress(text, next, t.end)
  {
    hide TokenAt, MaskFrom, Mask;
    SuffixesAgree(masked, text, index, t.end);
    MaskUnfold(text, index, t);
    Splice(text, masked, index, t.end, piece, MaskFrom(text, t.end), Mask(text), next);
  }

  lemma MaskUnfold(text: string, i: nat, t: Token)
    requires i < |text| && t == TokenAt(text, i)
    ensures MaskFrom(text, i) == Masked(text, i, t) + MaskFrom(text, t.end)
  {
  }

  /** Steps over a literal or a single character outside comments. */
  method SkipToken(text: string, start: nat) returns (index: nat)
    requires start < |text| && !TokenAt(text, start).Comment?
    ensures index > start && Min(index, |text|) == TokenAt(text, start).end
  {
    var raw := RawEnd(text, start);
    if raw >= 0 {
      return raw;
    }
    if text[start] == '"' || text[start] == '\'' {
      index := SkipQuoted(text, start + 1, text[start]);
      return;
    }
    return start + 1;
  }

  /** Finds the end of the comment that starts at index, if one does. */
  method SkipComment(text: string, index: nat) returns (end: nat)
    requires index < |text|
    ensures end > index <==> TokenAt(text, index).Comment?
    ensures end > index ==> TokenAt(text, index) == Comment(end)
    ensures end >= index
  {
    end := index;
    if MatchesAt(text, "//", index) {
      var newline := Find(text, "\n", index + 2, |text|);
      end := if newline < 0 then |text| else newline;
    } else if MatchesAt(text, "/*", index) {
      var close := Find(text, "*/", index + 2, |text|);
      end := if close < 0 then |text| else close + 2;
    }
  }

  method MaskCppComments(text: string) returns (result: string)
    ensures result == Mask(text)
  {
    var masked := new char[|text|](i requires 0 <= i < |text| => text[i]);
    var index := 0;
    assert masked[..] == text;
    while index < |text|
      invariant Progress(text, masked[..], index)
      decreases |text| - index
    {
      hide *;
      ghost var t, before := TokenAt(text, index), masked[..];
      var end := SkipComment(text, index);
      if end > index {
        Hide(masked, index, end);
        Advance(text, before, index, t, Blank(before[index..end]), masked[..]);
        index := end;
        continue;
      }
      ghost var start := index;
      index := SkipToken(text, index);
      StepOver(text, before, start, t, index);
    }
    result := masked[..];
    assert masked[..|text|] == masked[..];
  }

  lemma StepOver(text: string, masked: string, start: nat, t: Token, index: nat)
    requires start < |text| && t == TokenAt(text, start) && !t.Comment? && Progress(text, masked, start)
    requires Min(index, |text|) == t.end
    ensures Progress(text, masked, index)
  {
    hide *;
    assert masked == masked[..start] + masked[start..t.end] + masked[t.end..] by {
      WholeInThree(text, masked, start, t.end);
    }
    Advance(text, masked, start, t, masked[start..t.end], masked);
    PastTheEnd(text, masked, index);
  }

  lemma WholeInThree(text: string, masked: string, i: nat, e: nat)
    requires Progress(text, masked, i) && i <= e <= |text|
    ensures |masked| == |text| && masked == masked[..i] + masked[i..e] + masked[e..]
  {
  }

  /** A scan that ends one past the text is at its end. */
  lemma PastTheEnd(text: string, masked: string, index: nat)
    requires Progress(text, masked, Min(index, |text|))
    ensures Progress(text, masked, index)
  {
  }

  // ---- what the mask keeps ----

  /** The tokens from position i on, with their starts. */
  function Tokens(text: string, i: nat): seq<(nat, Token)>
    requires i <= |text|
    decreases |text| - i
  {
    if i == |text| then []
    else
      var t := TokenAt(text, i);
      [(i, t)] + Tokens(text, t.end)
  }

  lemma SliceOfSlice(s: string, a: nat, b: nat, p: nat, q: nat)
    requires a <= p <= q <= b <= |s|
    ensures s[p..q] == s[a..b][p - a..q - a]
  {
    forall k | 0 <= k < q - p ensures s[p..q][k] == s[a..b][p - a..q - a][k] {
    }
  }

  lemma FirstPiece(text: string, i: nat)
    requires i < |text|
    ensures var t := TokenAt(text, i);
      && MaskFrom(text, i)[..t.end - i] == Masked(text, i, t)
      && MaskFrom(text, i)[t.end - i..] == MaskFrom(text, t.end)
  {
    MaskUnfold(text, i, TokenAt(text, i));
  }

  /** The tokens tile the text from i on. */
  lemma {:induction false} TokensTile(text: string, i: nat, k: nat)
    requires i <= |text| && k < |Tokens(text, i)|
    ensures var ts := Tokens(text, i); var (b, t) := ts[k];
      && i <= b < t.end <= |text| && t == TokenAt(text, b)
      && b == (if k == 0 then i else ts[k - 1].1.end)
      && (k == |ts| - 1 ==> t.end == |text|)
    decreases k
  {
    hide TokenAt;
    if k > 0 {
      TokensTile(text, TokenAt(text, i).end, k - 1);
    }
  }

  /** Each token is blanked if it is a comment, and kept as it is if it is a literal or a
      character outside both. */
  lemma {:induction false} TokensMaskedOrKept(text: string, i: nat, k: nat)
    requires i <= |text| && k < |Tokens(text, i)|
    ensures var (b, t) := Tokens(text, i)[k];
      && i <= b < t.end <= |text|
      && MaskFrom(text, i)[b - i..t.end - i] == Masked(text, b, t)
    decreases k
  {
    hide MaskFrom, TokenAt, Masked;
    TokensTile(text, i, k);
    FirstPiece(text, i);
    if k > 0 {
      var next := TokenAt(text, i).end;
      TokensMaskedOrKept(text, next, k - 1);
      TokensTile(text, next, k - 1);
      var (b, t) := Tokens(text, i)[k];
      SliceOfSlice(MaskFrom(text, i), next - i, |text| - i, b - i, t.end - i);
      assert MaskFrom(text, i)[next - i..|text| - i] == MaskFrom(text, i)[next - i..];
    }
  }

  /** m is text with some characters other than line breaks replaced by spaces. */
  ghost predicate Blanked(text: string, m: string) {
    |m| == |text| && forall p | 0 <= p < |text| :: m[p] == text[p] || (m[p] == ' ' && !IsLineBreak(text[p]))
  }

  lemma {:induction false} MaskFromBlanks(text: string, i: nat)
    requires i <= |text|
    ensures Blanked(text[i..], MaskFrom(text, i))
    decreases |text| - i
  {
    hide TokenAt, MaskFrom;
    if i < |text| {
      var t := TokenAt(text, i);
      MaskFromBlanks(text, t.end);
      MaskUnfold(text, i, t);
      assert text[i..] == text[i..t.end] + text[t.end..];
    } else {
      Ends(text);
    }
  }

  /** Masking keeps the length, every line break and every character it does not turn
      into a space. */
  lemma MaskBlanks(text: string)
    ensures Blanked(text, Mask(text))
  {
    MaskFromBlanks(text, 0);
    assert text[0..] == text;
  }

  // ---- line numbers ----

  function LineBreaks(text: string, offset: nat): nat
    requires offset <= |text|
  {
    if offset == 0 then 0 else LineBreaks(text, offset - 1) + if text[offset - 1] == '\n' then 1 else 0
  }

  function LineNumber(text: string, offset: nat): nat
    requires offset <= |text|
  {
    LineBreaks(text, offset) + 1
  }

  /** A line number counts the line breaks before an offset, from one on. */
  lemma {:induction false} LineNumberCounts(text: string, offset: nat)
    requires offset <= |text|
    ensures LineNumber(text, offset) == 1 + multiset(text[..offset])['\n']
  {
    if offset > 0 {
      LineNumberCounts(text, offset - 1);
      assert text[..offset] == text[..offset - 1] + [text[offset - 1]];
    }
  }

  /** A line number computed in the masked text is the line number in the original. */
  lemma LineNumbersKept(text: string, offset: nat)
    requires offset <= |text|
    ensures LineNumber(Mask(text), offset) == LineNumber(text, offset)
  {
    MaskBlanks(text);
    LineBreaksKept(text, Mask(text), offset);
  }

  lemma {:induction false} LineBreaksKept(text: string, m: string, offset: nat)
    requires Blanked(text, m) && offset <= |text|
    ensures LineBreaks(m, offset) == LineBreaks(text, offset)
  {
    if offset > 0 {
      LineBreaksKept(text, m, offset - 1);
    }
  }

  // ---- idempotence ----

  predicate NoSpaces(pat: string) {
    ' ' !in pat
  }

  /** A pattern without spaces that matches the blanked text matches the original. */
  lemma MatchLifts(text: string, m: string, pat: string, p: nat)
    requires Blanked(text, m) && NoSpaces(pat) && MatchesAt(m, pat, p)
    ensures MatchesAt(text, pat, p)
  {
    forall k | 0 <= k < |pat| ensures text[p + k] == pat[k] {
      assert m[p..p + |pat|][k] == m[p + k];
    }
    assert text[p..p + |pat|] == pat;
  }

  /** Where the two texts agree, they match alike. */
  lemma MatchKept(text: string, m: string, pat: string, p: nat, a: nat, b: nat)
    requires |m| == |text| && a <= p && p + |pat| <= b <= |text| && m[a..b] == text[a..b]
    ensures MatchesAt(m, pat, p) <==> MatchesAt(text, pat, p)
  {
    SliceOfSlice(m, a, b, p, p + |pat|);
    SliceOfSlice(text, a, b, p, p + |pat|);
  }

  /** The first match is the same in both texts if they agree up to its end. */
  lemma FindKept(text: string, m: string, pat: string, from: nat, to: nat, a: nat, b: nat)
    requires |m| == |text| && to <= |text| && a <= from && b <= |text| && |pat| > 0
    requires Find(text, pat, from, to) >= 0 && Find(text, pat, from, to) + |pat| <= b
    requires m[a..b] == text[a..b]
    ensures Find(m, pat, from, to) == Find(text, pat, from, to)
  {
    var r, r' := Find(text, pat, from, to), Find(m, pat, from, to);
    MatchKept(text, m, pat, r, a, b);
    if 0 <= r' < r {
      MatchKept(text, m, pat, r', a, b);
    }
  }

  /** A raw literal that masking leaves in place is recognised again. */
  lemma RawKept(text: string, m: string, i: nat)
    requires Blanked(text, m) && RawEnd(text, i) >= 0 && m[i..RawEnd(text, i)] == text[i..RawEnd(text, i)]
    ensures RawEnd(m, i) == RawEnd(text, i)
  {
    var e := RawEnd(text, i);
    var to := Min(i + MAX_LOOKAHEAD, |text|);
    var open := Find(text, "(", i + 2, to);
    var terminator := ")" + text[i + 2..open] + "\"";
    MatchKept(text, m, "R\"", i, i, e);
    FindKept(text, m, "(", i + 2, to, i, e);
    SliceOfSlice(m, i, e, i + 2, open);
    SliceOfSlice(text, i, e, i + 2, open);
    FindKept(text, m, terminator, open + 1, |text|, i, e);
  }

  /** What is no raw literal does not become one by masking. */
  lemma NotRawKept(text: string, m: string, i: nat)
    requires Blanked(text, m) && RawEnd(text, i) < 0
    ensures RawEnd(m, i) < 0
  {
    if RawEnd(m, i) >= 0 {
      var to := Min(i + MAX_LOOKAHEAD, |text|);
      var open := Find(m, "(", i + 2, to);
      var delimiter := m[i + 2..open];
      MatchLifts(text, m, "R\"", i);
      MatchLifts(text, m, "(", open);
      SameOpening(text, m, i, to, open);
      var terminator := ")" + delimiter + "\"";
      assert NoSpaces(terminator);
      MatchLifts(text, m, terminator, Find(m, terminator, open + 1, |m|));
    }
  }

  lemma SameOpening(text: string, m: string, i: nat, to: nat, open: nat)
    requires Blanked(text, m) && i + 2 <= to <= |text| && open == Find(m, "(", i + 2, to)
    requires DelimiterOk(m[i + 2..open]) && MatchesAt(text, "(", open)
    ensures Find(text, "(", i + 2, to) == open && text[i + 2..open] == m[i + 2..open]
  {
    var delimiter := m[i + 2..open];
    forall p | i + 2 <= p < open ensures text[p] == m[p] && text[p] != '(' {
      assert m[p] == delimiter[p - (i + 2)];
    }
    assert text[i + 2..open] == delimiter;
    forall p | i + 2 <= p < open ensures !MatchesAt(text, "(", p) {
      assert text[p..p + 1][0] == text[p];
    }
  }

  lemma {:induction false} QuoteKept(text: string, m: string, j: nat, quote: char)
    requires |m| == |text| && quote != '\\'
    requires j <= |text| ==>
      m[j..Min(QuoteEnd(text, j, quote), |text|)] == text[j..Min(QuoteEnd(text, j, quote), |text|)]
    ensures QuoteEnd(m, j, quote) == QuoteEnd(text, j, quote)
    decreases |text| - j
  {
    if j < |text| {
      var e := Min(QuoteEnd(text, j, quote), |text|);
      assert m[j] == m[j..e][0] == text[j];
      var next := if text[j] == '\\' then j + 2 else j + 1;
      if next <= |text| && (text[j] == '\\' || text[j] != quote) {
        SliceOfSlice(m, j, e, next, e);
        SliceOfSlice(text, j, e, next, e);
      }
      if text[j] == '\\' || text[j] != quote {
        QuoteKept(text, m, next, quote);
      }
    }
  }

  /** A token outside comments that masking leaves in place is found again. */
  lemma TokenKept(text: string, m: string, i: nat)
    requires Blanked(text, m) && i < |text| && !TokenAt(text, i).Comment?
    requires m[i..TokenAt(text, i).end] == text[i..TokenAt(text, i).end]
    ensures TokenAt(m, i) == TokenAt(text, i)
  {
    var e := TokenAt(text, i).end;
    assert m[i] == m[i..e][0] == text[i];
    if MatchesAt(m, "//", i) {
      MatchLifts(text, m, "//", i);
    }
    if MatchesAt(m, "/*", i) {
      MatchLifts(text, m, "/*", i);
    }
    if RawEnd(text, i) >= 0 {
      RawKept(text, m, i);
    } else {
      NotRawKept(text, m, i);
      if text[i] == '"' || text[i] == '\'' {
        if i + 1 <= e {
          SliceOfSlice(m, i, e, i + 1, e);
          SliceOfSlice(text, i, e, i + 1, e);
        }
        QuoteKept(text, m, i + 1, text[i]);
      }
    }
  }

  /** A blank starts no comment and no literal. */
  lemma BlankIsPlain(m: string, p: nat)
    requires p < |m| && (m[p] == ' ' || IsLineBreak(m[p]))
    ensures TokenAt(m, p) == Plain(p + 1)
  {
    hide Find;
    assert forall pat | |pat| > 0 && MatchesAt(m, pat, p) :: pat[0] == m[p..p + |pat|][0] == m[p];
  }

  lemma PlainUnfold(m: string, p: nat)
    requires p < |m| && TokenAt(m, p) == Plain(p + 1)
    ensures MaskFrom(m, p) == m[p..p + 1] + MaskFrom(m, p + 1)
  {
    hide TokenAt;
    MaskUnfold(m, p, Plain(p + 1));
  }

  lemma Associate(a: string, b: string, c: string)
    ensures a + (b + c) == (a + b) + c
  {
  }

  /** A stretch of blanks holds no token but its characters. */
  lemma {:induction false} BlanksStay(m: string, p: nat, e: nat)
    requires p <= e <= |m| && forall q | p <= q < e :: m[q] == ' ' || IsLineBreak(m[q])
    ensures MaskFrom(m, p) == m[p..e] + MaskFrom(m, e)
    decreases e - p
  {
    hide *;
    if p < e {
      BlankIsPlain(m, p);
      BlanksStay(m, p + 1, e);
      PlainUnfold(m, p);
      assert m[p..e] == m[p..p + 1] + m[p + 1..e];
      Associate(m[p..p + 1], m[p + 1..e], MaskFrom(m, e));
    } else {
      assert m[p..e] + MaskFrom(m, e) == MaskFrom(m, e);
    }
  }

  lemma {:induction false} MaskFromMasked(text: string, m: string, i: nat)
    requires i <= |text| && Blanked(text, m) && m[i..] == MaskFrom(text, i)
    ensures MaskFrom(m, i) == MaskFrom(text, i)
    decreases |text| - i
  {
    hide TokenAt, MaskFrom, Blanked;
    if i < |text| {
      var t := TokenAt(text, i);
      FirstPiece(text, i);
      MaskUnfold(text, i, t);
      SameLength(text, m);
      assert m[t.end..] == m[i..][t.end - i..] && m[i..t.end] == m[i..][..t.end - i];
      MaskFromMasked(text, m, t.end);
      if t.Comment? {
        forall q | i <= q < t.end ensures m[q] == ' ' || IsLineBreak(m[q]) {
          assert m[q] == m[i..t.end][q - i];
        }
        BlanksStay(m, i, t.end);
      } else {
        TokenKept(text, m, i);
        MaskUnfold(m, i, t);
      }
    } else {
      SameLength(text, m);
      Ends(text);
      Ends(m);
    }
  }

  lemma SameLength(text: string, m: string)
    requires Blanked(text, m)
    ensures |m| == |text|
  {
  }

  lemma Ends(text: string)
    ensures MaskFrom(text, |text|) == ""
  {
  }

  /** Masking a masked text changes nothing more. */
  lemma MaskIdempotent(text: string)
    ensures Mask(Mask(text)) == Mask(text)
  {
    MaskBlanks(text);
    MaskFromMasked(text, Mask(text), 0);
  }
}
