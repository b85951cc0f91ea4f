/**
 Splitting a skill runner's output into messages that fit the Lark text cap. A character stands for one
 UTF-16 code unit. The cap is a parameter; the repository fixes it to MAX_LARK_TEXT_LENGTH.
 */
module OutputChunker {
  import opened Text

  const MAX_LARK_TEXT_LENGTH := 30_000
  const MARKER_OVERHEAD := 60
  const PARAGRAPH_BREAK := "\n\n"

  // ---- The paragraph search ----

  predicate BreakAt(s: string, i: int) {
    0 <= i && i + 2 <= |s| && s[i] == '\n' && s[i + 1] == '\n'
  }

  /**
   `LastIndexOf("\n\n", startIndex, count, Ordinal)`: the greatest position of a paragraph break that lies
   wholly between low and high (inclusive), or -1.
   */
  function LastBreak(s: string, low: nat, high: int): (i: int)
    requires low <= high + 1 <= |s|
    ensures i == -1 || (low <= i < high && BreakAt(s, i))
    ensures forall j :: low <= j < high && BreakAt(s, j) ==> j <= i
    decreases high - low + 1
  {
    if high <= low then -1
    else if BreakAt(s, high - 1) then high - 1
    else LastBreak(s, low, high - 1)
  }

  // ---- The greedy split ----

  /** One raw chunk: its text and what the split dropped after it. */
  datatype Piece = Piece(text: string, dropped: string)

  /** The split from an offset on: the last fitting paragraph break if there is one, else a hard split. */
  function Pieces(s: string, offset: nat, budget: nat): seq<Piece>
    requires offset <= |s| && budget > 0
    decreases |s| - offset
  {
    if offset == |s| then []
    else
      [NextPiece(s, offset, budget)] + Pieces(s, NextOffset(s, offset, budget), budget)
  }

  function NextPiece(s: string, offset: nat, budget: nat): (p: Piece)
    requires offset < |s| && budget > 0
    ensures offset + |p.text| + |p.dropped| <= |s|
    ensures 0 < |p.text| <= budget
  {
    if |s| - offset <= budget then Piece(s[offset..], "")
    else
      var boundary := LastBreak(s, offset, offset + budget - 1);
      if boundary <= offset then Piece(s[offset..offset + budget], "")
      else Piece(s[offset..boundary], PARAGRAPH_BREAK)
  }

  function PieceTexts(pieces: seq<Piece>): (texts: seq<string>)
    ensures |texts| == |pieces|
    ensures forall i :: 0 <= i < |texts| ==> texts[i] == pieces[i].text
  {
    if pieces == [] then [] else [pieces[0].text] + PieceTexts(pieces[1..])
  }

  function NextOffset(s: string, offset: nat, budget: nat): (next: nat)
    requires offset < |s| && budget > 0
    ensures offset < next <= |s|
  {
    var p := NextPiece(s, offset, budget);
    offset + |p.text| + |p.dropped|
  }

  function Texts(s: string, offset: nat, budget: nat): seq<string>
    requires offset <= |s| && budget > 0
  {
    PieceTexts(Pieces(s, offset, budget))
  }

  lemma TextsStep(chunks: seq<string>, s: string, offset: nat, budget: nat)
    requires offset < |s| && budget > 0
    ensures var next := NextOffset(s, offset, budget);
      chunks + Texts(s, offset, budget) == chunks + [NextPiece(s, offset, budget).text] + Texts(s, next, budget)
  {
    assert Pieces(s, offset, budget)[1..] == Pieces(s, NextOffset(s, offset, budget), budget);
  }

  /** Where the greedy split cuts, case by case. */
  lemma CutAt(s: string, offset: nat, budget: nat)
    requires offset < |s| && budget > 0
    ensures |s| - offset <= budget ==> NextPiece(s, offset, budget).text == s[offset..] && NextOffset(s, offset, budget) == |s|
    ensures |s| - offset > budget ==>
      var boundary := LastBreak(s, offset, offset + budget - 1);
      NextPiece(s, offset, budget).text == s[offset..if boundary <= offset then offset + budget else boundary]
      && NextOffset(s, offset, budget) == if boundary <= offset then offset + budget else boundary + 2
  {
  }

  lemma NoTexts(chunks: seq<string>, s: string, budget: nat)
    requires budget > 0
    ensures chunks + Texts(s, |s|, budget) == chunks
  {
  }

  /** One turn of the loop: the chunk that it cuts, and where it goes on. */
  method CutOne(output: string, offset: nat, contentBudget: nat) returns (chunk: string, next: nat)
    requires contentBudget > 0 && offset < |output|
    ensures chunk == NextPiece(output, offset, contentBudget).text && next == NextOffset(output, offset, contentBudget)
  {
    CutAt(output, offset, contentBudget);
    var remaining := |output| - offset;
    if remaining <= contentBudget {
      return output[offset..], |output|;
    }
    var boundary := LastBreak(output, offset, offset + contentBudget - 1);
    if boundary <= offset {
      return output[offset..offset + contentBudget], offset + contentBudget;
    }
    return output[offset..boundary], boundary + 2;
  }

  method SplitRaw(output: string, contentBudget: nat) returns (chunks: seq<string>)
    requires contentBudget > 0
    ensures chunks == Texts(output, 0, contentBudget)
  {
    chunks := [];
    var offset := 0;
    while offset < |output|
      invariant 0 <= offset <= |output|
      invariant chunks + Texts(output, offset, contentBudget) == Texts(output, 0, contentBudget)
    {
      TextsStep(chunks, output, offset, contentBudget);
      var chunk, next := CutOne(output, offset, contentBudget);
      chunks := chunks + [chunk];
      offset := next;
    }
    NoTexts(chunks, output, contentBudget);
  }

  // ---- Conservation and size of the raw chunks ----

  function Join(pieces: seq<Piece>): string {
    if pieces == [] then "" else pieces[0].text + pieces[0].dropped + Join(pieces[1..])
  }

  lemma SliceAt(s: string, i: nat, j: nat)
    requires i <= j <= |s|
    ensures s[i..] == s[i..j] + s[j..]
  {
  }

  lemma PieceIsSlice(s: string, offset: nat, budget: nat)
    requires offset < |s| && budget > 0
    ensures var p := NextPiece(s, offset, budget);
      s[offset..NextOffset(s, offset, budget)] == p.text + p.dropped
  {
  }

  lemma PiecesStep(s: string, offset: nat, budget: nat)
    requires offset < |s| && budget > 0
    ensures var pieces := Pieces(s, offset, budget);
      && pieces[0] == NextPiece(s, offset, budget)
      && pieces[1..] == Pieces(s, NextOffset(s, offset, budget), budget)
      && (|s| - offset <= budget ==> |pieces| == 1)
  {
  }

  /** Nothing is lost: the raw chunks with what was dropped after each of them are the input. */
  lemma {:induction false} PiecesConserve(s: string, offset: nat, budget: nat)
    requires offset <= |s| && budget > 0
    ensures Join(Pieces(s, offset, budget)) == s[offset..]
    decreases |s| - offset
  {
    if offset < |s| {
      var next := NextOffset(s, offset, budget);
      PiecesConserve(s, next, budget);
      PiecesStep(s, offset, budget);
      PieceIsSlice(s, offset, budget);
      SliceAt(s, offset, next);
    }
  }

  /** Every raw chunk is non-empty and within budget, and only paragraph breaks are dropped. */
  lemma {:induction false} PiecesFit(s: string, offset: nat, budget: nat, k: nat)
    requires offset <= |s| && budget > 0 && k < |Pieces(s, offset, budget)|
    ensures var p := Pieces(s, offset, budget)[k];
      0 < |p.text| <= budget && (p.dropped == "" || p.dropped == PARAGRAPH_BREAK)
    decreases k
  {
    if k > 0 {
      PiecesFit(s, NextOffset(s, offset, budget), budget, k - 1);
    }
  }

  // ---- How many chunks there are ----

  lemma StepIsBounded(s: string, offset: nat, budget: nat)
    requires offset < |s| && budget > 0
    ensures NextOffset(s, offset, budget) <= offset + budget
  {
  }

  /** Greed: two steps in a row that both leave a rest consume more than one budget. */
  lemma TwoStepsExceedBudget(s: string, offset: nat, budget: nat)
    requires offset < |s| && budget > 0 && |s| - offset > budget
    requires |s| - NextOffset(s, offset, budget) > budget
    ensures NextOffset(s, NextOffset(s, offset, budget), budget) > offset + budget
  {
    var boundary := LastBreak(s, offset, offset + budget - 1);
    var next := NextOffset(s, offset, budget);
    var second := LastBreak(s, next, next + budget - 1);
    if boundary > offset && second > next {
      assert BreakAt(s, second);
    }
  }

  /** n pieces for so many characters: at most one budget each, and more than one budget for every two. */
  predicate CountFits(n: nat, chars: nat, budget: nat) {
    n > 0 && chars <= n * budget && n / 2 * (budget + 1) <= chars && (n - 1) / 2 * (budget + 1) < chars
  }

  lemma OnePieceMore(chars: nat, rest: nat, budget: nat)
    requires rest < chars <= rest + budget && rest <= budget && (rest == 0 || (chars > budget && CountFits(1, rest, budget)))
    ensures CountFits(if rest == 0 then 1 else 2, chars, budget)
  {
  }

  lemma TwoPiecesMore(n: nat, chars: nat, rest: nat, budget: nat)
    requires CountFits(n, rest, budget) && rest + budget < chars <= rest + budget + budget
    ensures CountFits(n + 2, chars, budget)
  {
    assert (n + 1) / 2 == (n - 1) / 2 + 1 && (n + 2) / 2 == n / 2 + 1;
    Distribute((n - 1) / 2, 1, budget + 1);
    Distribute(n / 2, 1, budget + 1);
    Distribute(n, 2, budget);
  }

  lemma Distribute(x: int, y: int, d: int)
    ensures (x + y) * d == x * d + y * d
  {
  }

  lemma {:induction false} PieceCount(s: string, offset: nat, budget: nat)
    requires offset < |s| && budget > 0
    ensures CountFits(|Pieces(s, offset, budget)|, |s| - offset, budget)
    decreases |s| - offset
  {
    StepIsBounded(s, offset, budget);
    PiecesStep(s, offset, budget);
    var next := NextOffset(s, offset, budget);
    if |s| - next <= budget {
      if next < |s| {
        PieceCount(s, next, budget);
        PiecesStep(s, next, budget);
      }
      OnePieceMore(|s| - offset, |s| - next, budget);
    } else {
      TwoStepsExceedBudget(s, offset, budget);
      StepIsBounded(s, next, budget);
      PiecesStep(s, next, budget);
      var last := NextOffset(s, next, budget);
      PieceCount(s, last, budget);
      TwoPiecesMore(|Pieces(s, last, budget)|, |s| - offset, |s| - last, budget);
    }
  }

  lemma QuotientBound(q: nat, d: nat, x: nat)
    requires d > 0 && q * d <= x
    ensures q <= x / d
  {
    var k := x / d;
    assert x == k * d + x % d;
    Distribute(k, 1, d);
    MulMonotone(if q > k then k + 1 else q, q, d);
  }

  lemma MulMonotone(a: nat, b: nat, d: nat)
    requires a <= b
    ensures a * d <= b * d
  {
  }

  /**
   The number N of chunks of an input of length L, cut with budget B: L <= N * B, N <= 2 * ((L - 1) / (B + 1)) + 2,
   and when N is even N / 2 * (B + 1) <= L.
   */
  lemma ChunkCount(s: string, budget: nat)
    requires s != "" && budget > 0
    ensures var n := |Texts(s, 0, budget)|;
      && |s| <= n * budget && n <= 2 * ((|s| - 1) / (budget + 1)) + 2
      && n / 2 * (budget + 1) <= |s|
  {
    PieceCount(s, 0, budget);
    var n := |Pieces(s, 0, budget)|;
    QuotientBound((n - 1) / 2, budget + 1, |s| - 1);
  }

  // ---- Rendering ----

  function ContinuesSuffix(part: nat, total: nat): string {
    "\n\n[part " + Decimal(part) + "/" + Decimal(total) + " \U{2022} continues \U{2193}]"
  }

  function ContinuedPrefix(part: nat, total: nat): string {
    "[part " + Decimal(part) + "/" + Decimal(total) + " \U{2022} continued \U{2191}]\n\n"
  }

  function Rendered(raw: seq<string>, i: nat): string
    requires i < |raw|
  {
    (if i > 0 then ContinuedPrefix(i + 1, |raw|) else "")
    + raw[i]
    + (if i < |raw| - 1 then ContinuesSuffix(i + 1, |raw|) else "")
  }

  function ContentBudget(cap: nat): int {
    if cap - MARKER_OVERHEAD < 100 then cap else cap - MARKER_OVERHEAD
  }

  function RenderedChunks(output: string, cap: nat): seq<string>
    requires cap > 0
  {
    if |output| <= cap then [output]
    else RenderAll(Texts(output, 0, ContentBudget(cap)))
  }

  function RenderAll(raw: seq<string>): seq<string> {
    RenderFirst(raw, |raw|)
  }

  function RenderFirst(raw: seq<string>, n: nat): (rendered: seq<string>)
    requires n <= |raw|
    ensures |rendered| == n && forall i :: 0 <= i < n ==> rendered[i] == Rendered(raw, i)
  {
    if n == 0 then [] else RenderFirst(raw, n - 1) + [Rendered(raw, n - 1)]
  }

  /** An output over the cap is split into at least two chunks. */
  lemma AtLeastTwo(output: string, cap: nat)
    requires 0 < cap < |output|
    ensures |Texts(output, 0, ContentBudget(cap))| >= 2
  {
    PieceCount(output, 0, ContentBudget(cap));
  }

  method RenderPart(rawChunks: seq<string>, i: nat) returns (part: string)
    requires i < |rawChunks|
    ensures part == Rendered(rawChunks, i)
  {
    var total := |rawChunks|;
    var partNum := i + 1;
    var prefix := if i > 0 then ContinuedPrefix(partNum, total) else "";
    var suffix := if i < total - 1 then ContinuesSuffix(partNum, total) else "";
    part := prefix + rawChunks[i] + suffix;
  }

  method RenderParts(rawChunks: seq<string>) returns (rendered: seq<string>)
    ensures rendered == RenderAll(rawChunks)
  {
    rendered := [];
    for i := 0 to |rawChunks|
      invariant rendered == RenderFirst(rawChunks, i)
    {
      var part := RenderPart(rawChunks, i);
      rendered := rendered + [part];
    }
  }

  lemma OneChunk(raw: seq<string>)
    requires |raw| == 1
    ensures RenderAll(raw) == raw
  {
    assert Rendered(raw, 0) == raw[0];
  }

  method Split(output: string, cap: nat) returns (rendered: seq<string>)
    requires cap > 0
    ensures rendered == RenderedChunks(output, cap)
  {
    if output == "" {
      return [output];
    }
    if |output| <= cap {
      return [output];
    }
    var contentBudget := cap - MARKER_OVERHEAD;
    if contentBudget < 100 {
      contentBudget := cap;
    }
    var rawChunks := SplitRaw(output, contentBudget);
    if |rawChunks| == 1 {
      OneChunk(rawChunks);
      return rawChunks;
    }
    rendered := RenderParts(rawChunks);
  }

  // ---- The rendered chunks can be put together again ----

  /** A decimal numeral of this number. */
  predicate Numbers(digits: string, n: nat) {
    AllDigits(digits) && Natural(digits) == n
  }

  /** The markers of a part, with its number and the total. */
  ghost predicate MarkedWith(chunk: string, text: string, part: nat, total: nat, a: string, b: string) {
    && Numbers(a, part) && Numbers(b, total)
    && chunk == (if part > 1 then "[part " + a + "/" + b + " \U{2022} continued \U{2191}]\n\n" else "")
                + text
                + (if part < total then "\n\n[part " + a + "/" + b + " \U{2022} continues \U{2193}]" else "")
  }

  ghost predicate Marked(chunk: string, text: string, part: nat, total: nat) {
    exists a, b :: MarkedWith(chunk, text, part, total, a, b)
  }

  lemma RenderedIsMarked(raw: seq<string>, i: nat)
    requires i < |raw|
    ensures Marked(Rendered(raw, i), raw[i], i + 1, |raw|)
  {
    var (a, b) := (Decimal(i + 1), Decimal(|raw|));
    DecimalIsDigits(i + 1);
    DecimalIsDigits(|raw|);
    assert MarkedWith(Rendered(raw, i), raw[i], i + 1, |raw|, a, b);
  }

  /**
   Whoever takes off the markers, which carry the number of each part and the total, and puts back what was dropped
   has the output again, in order; nothing but paragraph breaks was dropped.
   */
  lemma ChunksReassemble(output: string, cap: nat) returns (pieces: seq<Piece>)
    requires 0 < cap < |output|
    ensures |pieces| == |RenderedChunks(output, cap)| && Join(pieces) == output
    ensures forall i :: 0 <= i < |pieces| ==>
      && Marked(RenderedChunks(output, cap)[i], pieces[i].text, i + 1, |pieces|)
      && pieces[i].text != "" && (pieces[i].dropped == "" || pieces[i].dropped == PARAGRAPH_BREAK)
  {
    pieces := Pieces(output, 0, ContentBudget(cap));
    PiecesConserve(output, 0, ContentBudget(cap));
    assert output[0..] == output;
    forall i | 0 <= i < |pieces|
      ensures Marked(RenderedChunks(output, cap)[i], pieces[i].text, i + 1, |pieces|)
      ensures pieces[i].text != "" && (pieces[i].dropped == "" || pieces[i].dropped == PARAGRAPH_BREAK)
    {
      PiecesFit(output, 0, ContentBudget(cap), i);
      RenderedIsMarked(Texts(output, 0, ContentBudget(cap)), i);
    }
  }

  // ---- The rendered chunks fit ----

  function DigitCount(n: nat): nat {
    if n < 10 then 1 else 1 + DigitCount(n / 10)
  }

  lemma {:induction false} DecimalLength(n: nat)
    ensures |Decimal(n)| == DigitCount(n)
  {
    if n >= 10 {
      DecimalLength(n / 10);
    }
  }

  /** Prefix and suffix together take 48 characters and twice the digits of the two numbers. */
  lemma MarkerLength(part: nat, total: nat)
    ensures |ContinuedPrefix(part, total)| == 24 + DigitCount(part) + DigitCount(total)
    ensures |ContinuesSuffix(part, total)| == 24 + DigitCount(part) + DigitCount(total)
  {
    DecimalLength(part);
    DecimalLength(total);
    assert |" \U{2022} continues \U{2193}]"| == 15;
    assert |"]\n\n"| == 3;
  }

  lemma DigitsByRange(n: nat)
    ensures n < 1000 ==> DigitCount(n) <= 3
    ensures 100 <= n < 1000 ==> DigitCount(n) == 3
    ensures n >= 1000 ==> DigitCount(n) >= 4
    ensures n == 1000 ==> DigitCount(n) == 4
  {
    assert DigitCount(n) == if n < 10 then 1 else 1 + DigitCount(n / 10);
    assert DigitCount(n / 10) == if n / 10 < 10 then 1 else 1 + DigitCount(n / 10 / 10);
    assert DigitCount(n / 10 / 10) == if n / 10 / 10 < 10 then 1 else 1 + DigitCount(n / 10 / 10 / 10);
  }

  function Overhead(i: nat, total: nat): nat {
    (if i > 0 then 24 + DigitCount(i + 1) + DigitCount(total) else 0)
    + (if i < total - 1 then 24 + DigitCount(i + 1) + DigitCount(total) else 0)
  }

  lemma RenderedLength(raw: seq<string>, i: nat)
    requires i < |raw|
    ensures |Rendered(raw, i)| == |raw[i]| + Overhead(i, |raw|)
  {
    MarkerLength(i + 1, |raw|);
  }

  /**
   The reserve of 60 characters is exactly what the markers of an inner part take when both numbers have
   three digits; it is enough for up to 999 parts.
   */
  lemma ReserveIsTight(i: nat, total: nat)
    requires i < total
    ensures total <= 999 ==> Overhead(i, total) <= MARKER_OVERHEAD
    ensures 99 <= i < total - 1 && total <= 999 ==> Overhead(i, total) == MARKER_OVERHEAD
  {
    DigitsByRange(i + 1);
    DigitsByRange(total);
  }

  /** The reserve is enough for every part exactly when there are at most 999 of them. */
  lemma ReserveSufficesExactly(total: nat)
    ensures (forall i :: 0 <= i < total ==> Overhead(i, total) <= MARKER_OVERHEAD) <==> total <= 999
  {
    if total <= 999 {
      forall i | 0 <= i < total
        ensures Overhead(i, total) <= MARKER_OVERHEAD
      {
        ReserveIsTight(i, total);
      }
    } else {
      DigitsByRange(100);
      DigitsByRange(total);
      assert Overhead(99, total) > MARKER_OVERHEAD;
    }
  }

  /** Every rendered chunk of an output that splits into at most 999 parts fits the cap. */
  lemma RenderedChunksFit(output: string, cap: nat, i: nat)
    requires cap >= 160 && i < |RenderedChunks(output, cap)| <= 999
    ensures |RenderedChunks(output, cap)[i]| <= cap
  {
    if |output| > cap {
      var raw := Texts(output, 0, ContentBudget(cap));
      RenderedLength(raw, i);
      PiecesFit(output, 0, ContentBudget(cap), i);
      ReserveIsTight(i, |raw|);
    }
  }

  lemma FewChunks(output: string, budget: nat)
    requires output != "" && budget > 0 && |output| < 500 * (budget + 1)
    ensures |Texts(output, 0, budget)| <= 999
  {
    ChunkCount(output, budget);
    var n := |Texts(output, 0, budget)|;
    if n >= 1000 {
      MulMonotone(500, n / 2, budget + 1);
    }
  }

  /** With the repository's cap, every output of less than 500 * 29,941 characters is delivered within the cap. */
  lemma OutputsOfThisLengthFit(output: string, i: nat)
    requires |output| < 500 * 29_941
    requires i < |RenderedChunks(output, MAX_LARK_TEXT_LENGTH)|
    ensures |RenderedChunks(output, MAX_LARK_TEXT_LENGTH)[i]| <= MAX_LARK_TEXT_LENGTH
  {
    if |output| > MAX_LARK_TEXT_LENGTH {
      FewChunks(output, ContentBudget(MAX_LARK_TEXT_LENGTH));
      RenderedChunksFit(output, MAX_LARK_TEXT_LENGTH, i);
    }
  }

  lemma {:induction false} HardSplits(s: string, offset: nat, budget: nat, n: nat)
    requires budget > 0 && offset <= |s| && |s| - offset == n * budget
    requires forall i :: !BreakAt(s, i)
    ensures |Pieces(s, offset, budget)| == n
    ensures forall p :: p in Pieces(s, offset, budget) ==> |p.text| == budget
    decreases n
  {
    if n > 0 {
      Distribute(n - 1, 1, budget);
      if n == 1 {
        PiecesStep(s, offset, budget);
      } else {
        MulMonotone(1, n - 1, budget);
        assert NextOffset(s, offset, budget) == offset + budget;
        HardSplits(s, offset + budget, budget, n - 1);
      }
    }
  }

  /** The limit of 999 parts is real: an unbroken output of a thousand budgets overflows the cap in part 101. */
  lemma ThousandPartsOverflow(output: string)
    requires |output| == 1000 * 29_940 && forall i :: !BreakAt(output, i)
    ensures |RenderedChunks(output, MAX_LARK_TEXT_LENGTH)| == 1000
    ensures |RenderedChunks(output, MAX_LARK_TEXT_LENGTH)[100]| == MAX_LARK_TEXT_LENGTH + 2
  {
    HardSplits(output, 0, 29_940, 1000);
    var raw := Texts(output, 0, 29_940);
    RenderedLength(raw, 100);
    DigitsByRange(101);
    DigitsByRange(1000);
  }

  // ---- The shortest output that does not fit ----

  function Ys(n: nat): (s: string)
    ensures |s| == n && forall i :: 0 <= i < n ==> s[i] == 'y'
  {
    seq(n, _ => 'y')
  }

  /** Two pieces that take one character more than the budget, with the breaks after them. */
  function Tooth(budget: nat): (s: string)
    requires budget > 5
    ensures |s| == budget + 1 && s[0] == 'x' && s[1] == s[2] == s[budget - 1] == s[budget] == '\n'
    ensures forall i :: 3 <= i < budget - 1 ==> s[i] == 'y'
  {
    "x\n\n" + Ys(budget - 4) + "\n\n"
  }

  function Comb(n: nat, budget: nat): (s: string)
    requires budget > 5
    ensures s != "" && s[0] != '\n'
  {
    if n == 0 then Ys(budget + 1) else Tooth(budget) + Comb(n - 1, budget)
  }

  lemma {:induction false} CombLength(n: nat, budget: nat)
    requires budget > 5
    ensures |Comb(n, budget)| == (n + 1) * (budget + 1)
  {
    if n > 0 {
      CombLength(n - 1, budget);
      Distribute(n, 1, budget + 1);
    }
  }

  lemma LastBreakIs(s: string, low: nat, high: int, i: nat)
    requires low <= i < high < |s| && BreakAt(s, i) && forall j :: i < j < high ==> !BreakAt(s, j)
    ensures LastBreak(s, low, high) == i
  {
  }

  lemma SuffixAt(s: string, offset: nat, t: string, i: nat)
    requires offset <= |s| && s[offset..] == t && i < |t|
    ensures offset + i < |s| && s[offset + i] == t[i]
  {
  }

  /** A tooth takes two pieces, neither of which is as long as the budget. */
  lemma ToothSteps(s: string, offset: nat, n: nat, budget: nat)
    requires budget > 5 && offset <= |s| && s[offset..] == Comb(n, budget) && n > 0
    ensures offset < |s| && NextOffset(s, offset, budget) == offset + 3 < |s|
    ensures NextOffset(s, offset + 3, budget) == offset + budget + 1 <= |s|
    ensures s[offset + budget + 1..] == Comb(n - 1, budget)
  {
    var t, rest := Comb(n, budget), Comb(n - 1, budget);
    CombLength(n - 1, budget);
    MulMonotone(1, n, budget + 1);
    assert |t| == budget + 1 + |rest|;
    forall i | 0 <= i <= budget + 1
      ensures s[offset + i] == t[i]
    {
      SuffixAt(s, offset, t, i);
    }
    assert t[budget + 1] == rest[0];
    LastBreakIs(s, offset, offset + budget - 1, offset + 1);
    assert budget + 2 < |t|;
    SuffixAt(s, offset, t, budget + 2);
    LastBreakIs(s, offset + 3, offset + 3 + budget - 1, offset + budget - 1);
    assert s[offset + budget + 1..] == s[offset..][budget + 1..];
    assert t[budget + 1..] == rest;
  }

  /** So many pieces for `n` teeth, the last but one as long as the budget. */
  predicate CombCut(pieces: seq<Piece>, n: nat, budget: nat) {
    |pieces| == 2 * n + 2 && |pieces[2 * n].text| == budget
  }

  /** The last tooth is unbroken: a piece as long as the budget, and one character. */
  lemma LastPieces(s: string, offset: nat, budget: nat)
    requires budget > 5 && offset <= |s| && s[offset..] == Comb(0, budget)
    ensures CombCut(Pieces(s, offset, budget), 0, budget)
  {
    assert |s| == offset + budget + 1;
    forall j | offset <= j < |s|
      ensures s[j] == 'y'
    {
      SuffixAt(s, offset, Comb(0, budget), j - offset);
    }
    PiecesStep(s, offset, budget);
    assert NextOffset(s, offset, budget) == offset + budget;
    PiecesStep(s, offset + budget, budget);
  }

  lemma TwoPieces(s: string, offset: nat, next: nat, last: nat, n: nat, budget: nat)
    requires budget > 0 && offset < |s| && NextOffset(s, offset, budget) == next < |s|
    requires NextOffset(s, next, budget) == last && CombCut(Pieces(s, last, budget), n, budget)
    ensures CombCut(Pieces(s, offset, budget), n + 1, budget)
  {
    PiecesStep(s, offset, budget);
    PiecesStep(s, next, budget);
    assert Pieces(s, offset, budget)[2 * n + 2] == Pieces(s, next, budget)[2 * n + 1];
    assert Pieces(s, next, budget)[2 * n + 1] == Pieces(s, last, budget)[2 * n];
  }

  lemma {:induction false} CombPieces(s: string, offset: nat, n: nat, budget: nat)
    requires budget > 5 && offset <= |s| && s[offset..] == Comb(n, budget)
    ensures CombCut(Pieces(s, offset, budget), n, budget)
    decreases n
  {
    if n == 0 {
      LastPieces(s, offset, budget);
    } else {
      ToothSteps(s, offset, n, budget);
      var next := offset + budget + 1;
      CombPieces(s, next, n - 1, budget);
      TwoPieces(s, offset, offset + 3, next, n - 1, budget);
    }
  }

  ghost predicate Fits(output: string) {
    forall i :: 0 <= i < |RenderedChunks(output, MAX_LARK_TEXT_LENGTH)| ==>
      |RenderedChunks(output, MAX_LARK_TEXT_LENGTH)[i]| <= MAX_LARK_TEXT_LENGTH
  }

  lemma CombOverflows(n: nat, budget: nat)
    requires n == 499 && budget == 29_940
    ensures |Comb(n, budget)| == 500 * 29_941 && !Fits(Comb(n, budget))
  {
    var output := Comb(n, budget);
    CombLength(n, budget);
    assert output[0..] == output;
    CombPieces(output, 0, n, budget);
    var raw := Texts(output, 0, budget);
    RenderedLength(raw, 998);
    DigitsByRange(999);
    DigitsByRange(1000);
    assert |Rendered(raw, 998)| == MAX_LARK_TEXT_LENGTH + 2;
    assert RenderedChunks(output, MAX_LARK_TEXT_LENGTH)[998] == Rendered(raw, 998);
  }

  /** The exact length up to which every output is delivered within the cap. */
  lemma GuaranteedLengthExactly(length: nat)
    ensures (forall output: string :: |output| <= length ==> Fits(output)) <==> length < 500 * 29_941
  {
    if length < 500 * 29_941 {
      forall output: string | |output| <= length
        ensures Fits(output)
      {
        forall i | 0 <= i < |RenderedChunks(output, MAX_LARK_TEXT_LENGTH)|
          ensures |RenderedChunks(output, MAX_LARK_TEXT_LENGTH)[i]| <= MAX_LARK_TEXT_LENGTH
        {
          OutputsOfThisLengthFit(output, i);
        }
      }
    } else {
      CombOverflows(499, 29_940);
    }
  }
}
