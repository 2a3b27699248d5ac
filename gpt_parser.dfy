/** The résumé-to-posting matcher of `utilities/gpt_parser.py` (`evaluate_job_matches`):
    for each posting it renders a context, asks the language model through a
    retrieval chain, and parses the three numbered items out of the reply.
    Text splitting, the vector index and the model are parameters (Collaborators). */
module GptParser {
  import opened PyText
  import opened Postings

  // ---------------------------------------------------------------------------
  // The posting context
  // ---------------------------------------------------------------------------

  /** The labels of the six context lines, in the order they are written. */
  const ContextLabels: seq<string> :=
    ["Platform: ", "Job Title: ", "Company: ", "Location: ", "Job Description: ", "Job URL: "]

  /** The six posting fields, in the order of ContextLabels. */
  function FieldValues(p: Posting): (vs: seq<string>)
    ensures |vs| == |ContextLabels|
  {
    [p.platform, p.jobTitle, p.company, p.location, p.jobDescription, p.jobUrl]
  }

  /** One `label + value + "\n"` line per label. */
  function RenderLines(labels: seq<string>, values: seq<string>): (r: string)
    requires |labels| == |values|
    ensures labels != [] ==> |r| > 0 && r[|r| - 1] == '\n'
  {
    if labels == [] then ""
    else
      var rest := RenderLines(labels[1..], values[1..]);
      var r := labels[0] + values[0] + "\n" + rest;
      assert rest != [] ==> r[|r| - 1] == rest[|rest| - 1];
      r
  }

  /** The text that describes one posting, both as the retrieval query and inside the prompt. */
  function JobContext(p: Posting): (ctx: string)
    ensures |ctx| > 0 && ctx[|ctx| - 1] == '\n'
  {
    RenderLines(ContextLabels, FieldValues(p))
  }

  /** The context is the six labelled fields in their fixed order, each on its own line
      (the concatenation is written grouped from the right). */
  lemma JobContextIs(p: Posting)
    ensures JobContext(p) ==
      "Platform: " + p.platform + "\n" + ("Job Title: " + p.jobTitle + "\n" + ("Company: " + p.company + "\n"
      + ("Location: " + p.location + "\n" + ("Job Description: " + p.jobDescription + "\n"
      + ("Job URL: " + p.jobUrl + "\n")))))
  {
    var ls, vs := ContextLabels, FieldValues(p);
    var r5 := RenderLines(ls[5..], vs[5..]);
    assert ls[5..] == ["Job URL: "] && vs[5..] == [p.jobUrl];
    assert ls[5..][1..] == [] && vs[5..][1..] == [];
    assert RenderLines([], []) == "";
    assert r5 == "Job URL: " + p.jobUrl + "\n";
    var r4 := RenderLines(ls[4..], vs[4..]);
    assert ls[4..][1..] == ls[5..] && vs[4..][1..] == vs[5..];
    assert r4 == "Job Description: " + p.jobDescription + "\n" + r5;
    var r3 := RenderLines(ls[3..], vs[3..]);
    assert ls[3..][1..] == ls[4..] && vs[3..][1..] == vs[4..];
    assert r3 == "Location: " + p.location + "\n" + r4;
    var r2 := RenderLines(ls[2..], vs[2..]);
    assert ls[2..][1..] == ls[3..] && vs[2..][1..] == vs[3..];
    assert r2 == "Company: " + p.company + "\n" + r3;
    var r1 := RenderLines(ls[1..], vs[1..]);
    assert ls[1..][1..] == ls[2..] && vs[1..][1..] == vs[2..];
    assert r1 == "Job Title: " + p.jobTitle + "\n" + r2;
    assert RenderLines(ls, vs) == "Platform: " + p.platform + "\n" + r1;
  }

  /** Python's `str.split("\n")`: the pieces between line breaks (one more than there are breaks). */
  function SplitLines(s: string): (lines: seq<string>)
    ensures |lines| >= 1
    decreases |s|
  {
    var j := SpanWhile(s, 0, NotNewline);
    if j == |s| then [s] else [s[..j]] + SplitLines(s[j + 1..])
  }

  lemma SplitLinesCons(a: string, b: string)
    requires All(a, 0, |a|, NotNewline)
    ensures SplitLines(a + "\n" + b) == [a] + SplitLines(b)
  {
    var s := a + "\n" + b;
    SpanWhileAt(s, 0, |a|, NotNewline);
    assert s[..|a|] == a && s[|a| + 1..] == b;
  }

  predicate OneLine(s: string) { All(s, 0, |s|, NotNewline) }

  lemma {:induction false} SplitRenderedLines(labels: seq<string>, values: seq<string>)
    requires |labels| == |values|
    requires forall i :: 0 <= i < |labels| ==> OneLine(labels[i]) && OneLine(values[i])
    ensures |SplitLines(RenderLines(labels, values))| == |labels| + 1
    ensures SplitLines(RenderLines(labels, values))[|labels|] == ""
    ensures forall i :: 0 <= i < |labels| ==> SplitLines(RenderLines(labels, values))[i] == labels[i] + values[i]
  {
    if labels == [] {
      assert SpanWhile("", 0, NotNewline) == 0;
    } else {
      RenderedFirstLine(labels, values);
      var rest := RenderLines(labels[1..], values[1..]);
      assert forall i :: 0 <= i < |labels| - 1 ==> labels[1..][i] == labels[i + 1] && values[1..][i] == values[i + 1];
      SplitRenderedLines(labels[1..], values[1..]);
      ShiftLines(labels, values, SplitLines(rest));
    }
  }

  lemma RenderedFirstLine(labels: seq<string>, values: seq<string>)
    requires |labels| == |values| > 0 && OneLine(labels[0]) && OneLine(values[0])
    ensures SplitLines(RenderLines(labels, values))
         == [labels[0] + values[0]] + SplitLines(RenderLines(labels[1..], values[1..]))
  {
    var line := labels[0] + values[0];
    AllConcat(labels[0], values[0], NotNewline);
    SplitLinesCons(line, RenderLines(labels[1..], values[1..]));
  }

  /** The pieces of the first line followed by those of the remaining lines. */
  lemma ShiftLines(labels: seq<string>, values: seq<string>, tail: seq<string>)
    requires |labels| == |values| > 0 && |tail| == |labels|
    requires forall i :: 0 <= i < |labels| - 1 ==> tail[i] == labels[1..][i] + values[1..][i]
    ensures forall i :: 0 <= i < |labels| ==> ([labels[0] + values[0]] + tail)[i] == labels[i] + values[i]
  {
    forall i | 1 <= i < |labels| ensures ([labels[0] + values[0]] + tail)[i] == labels[i] + values[i] {
      assert ([labels[0] + values[0]] + tail)[i] == tail[i - 1];
      assert labels[1..][i - 1] == labels[i] && values[1..][i - 1] == values[i];
    }
  }

  /** Reads a job context back into the posting it was rendered from:
      seven pieces, the last empty, the first six starting with their labels. */
  function ParseContext(ctx: string): (r: Option<Posting>)
    ensures r.Some? ==> |SplitLines(ctx)| == |ContextLabels| + 1
  {
    var lines := SplitLines(ctx);
    if |lines| == 7 && lines[6] == ""
       && forall i :: 0 <= i < 6 ==> ContextLabels[i] <= lines[i]
    then
      var v := seq(6, i requires 0 <= i < 6 => lines[i][|ContextLabels[i]|..]);
      Some(Posting(v[0], v[1], v[2], v[3], v[4], v[5]))
    else
      None
  }

  /** A posting whose fields hold no line break is recovered from its context:
      the context loses no field and mixes no two of them up. */
  lemma ContextRoundTrip(p: Posting)
    requires forall i :: 0 <= i < 6 ==> OneLine(FieldValues(p)[i])
    ensures ParseContext(JobContext(p)) == Some(p)
  {
    var ls, vs := ContextLabels, FieldValues(p);
    forall i | 0 <= i < 6 ensures OneLine(ls[i]) {
      assert ls[i] in ContextLabels;
    }
    SplitRenderedLines(ls, vs);
    ParseLabelledLines(JobContext(p), vs);
  }

  /** Seven pieces, the last empty and each other one its label followed by a value,
      are read back to those values. */
  lemma ParseLabelledLines(ctx: string, vs: seq<string>)
    requires |vs| == 6 && |SplitLines(ctx)| == 7 && SplitLines(ctx)[6] == ""
    requires forall i :: 0 <= i < 6 ==> SplitLines(ctx)[i] == ContextLabels[i] + vs[i]
    ensures ParseContext(ctx) == Some(Posting(vs[0], vs[1], vs[2], vs[3], vs[4], vs[5]))
  {
    var lines := SplitLines(ctx);
    forall i | 0 <= i < 6
      ensures ContextLabels[i] <= lines[i] && lines[i][|ContextLabels[i]|..] == vs[i]
    {
      assert lines[i] == ContextLabels[i] + vs[i];
    }
  }

  // ---------------------------------------------------------------------------
  // The prompt
  // ---------------------------------------------------------------------------

  /** The fixed instruction that asks for the three numbered items, ending in a blank line. */
  const PromptPrefix: string :=
    "Evaluate the relevance of the provided resume (in chunks) to the following job description.\n\n"
    + "Return the following outputs strictly in this order:\n"
    + "1. **Match Percentage** (only a number between 0-100, no extra text).\n"
    + "2. **Skill Gaps** (a comma-separated list of missing or weak skills).\n"
    + "3. **Resume Tailoring Suggestions** (a brief but detailed recommendation on how to tailor the resume for this job).\n\n"

  /** The question put to the model: the fixed instruction followed by the posting's context. */
  function Prompt(ctx: string): (q: string)
    ensures |q| == |PromptPrefix| + |ctx|
    ensures q[..|PromptPrefix|] == PromptPrefix && q[|PromptPrefix|..] == ctx
  {
    PromptPrefix + ctx
  }

  /** Two postings whose fields hold no line break get the same prompt only if they are equal. */
  lemma PromptDistinguishesPostings(p: Posting, p': Posting)
    requires forall i :: 0 <= i < 6 ==> OneLine(FieldValues(p)[i])
    requires forall i :: 0 <= i < 6 ==> OneLine(FieldValues(p')[i])
    requires Prompt(JobContext(p)) == Prompt(JobContext(p'))
    ensures p == p'
  {
    var q := Prompt(JobContext(p));
    assert JobContext(p) == q[|PromptPrefix|..] == JobContext(p');
    ContextRoundTrip(p);
    ContextRoundTrip(p');
  }

  // ---------------------------------------------------------------------------
  // The three numbered items of the reply
  // ---------------------------------------------------------------------------

  datatype Item = MatchPercentage | SkillGaps | TailoringSuggestions

  function Numeral(item: Item): char {
    match item
    case MatchPercentage => '1'
    case SkillGaps => '2'
    case TailoringSuggestions => '3'
  }

  /** The literal `d.` starts at position i. */
  predicate MarkerAt(s: string, i: nat, d: char) {
    i + 1 < |s| && s[i] == d && s[i + 1] == '.'
  }

  /** Where the greedy `\s*` after a marker at i stops, i.e. where the capture group begins. */
  function CaptureStart(s: string, i: nat): (j: nat)
    requires i + 2 <= |s|
    ensures i + 2 <= j <= |s| && All(s, i + 2, j, IsSpace)
    ensures j < |s| ==> !IsSpace(s[j])
  {
    SpanWhile(s, i + 2, IsSpace)
  }

  /** The item's pattern matches at position i: `1\.\s*([\d.]+)`, `2\.\s*(.*)` or `3\.\s*(.*)`. */
  predicate MatchesAt(s: string, i: nat, item: Item) {
    && MarkerAt(s, i, Numeral(item))
    && (item == MatchPercentage ==> CaptureStart(s, i) < |s| && IsNumChar(s[CaptureStart(s, i)]))
  }

  /** `1\.\s*([\d.]+)` matches at i exactly when "1." is followed by some whitespace run
      and a non-empty run of digits and dots (the regular expression's own reading). */
  lemma PercentagePatternAt(s: string, i: nat)
    ensures MatchesAt(s, i, MatchPercentage) <==>
      MarkerAt(s, i, '1') &&
      exists w: nat, k: nat :: i + 2 <= w < k <= |s| && All(s, i + 2, w, IsSpace) && All(s, w, k, IsNumChar)
  {
    if MatchesAt(s, i, MatchPercentage) {
      var j := CaptureStart(s, i);
      assert All(s, j, j + 1, IsNumChar);
    }
    if MarkerAt(s, i, '1') &&
       exists w: nat, k: nat :: i + 2 <= w < k <= |s| && All(s, i + 2, w, IsSpace) && All(s, w, k, IsNumChar)
    {
      var w: nat, k: nat :| i + 2 <= w < k <= |s| && All(s, i + 2, w, IsSpace) && All(s, w, k, IsNumChar);
      assert IsNumChar(s[w]);
      SpanWhileAt(s, i + 2, w, IsSpace);
    }
  }

  /** `re.search`: the leftmost position at or after k where the item's pattern matches. */
  function FindFrom(s: string, item: Item, k: nat): (r: Option<nat>)
    ensures r.Some? ==> k <= r.value < |s| && MatchesAt(s, r.value, item)
    ensures r.Some? ==> forall j :: k <= j < r.value ==> !MatchesAt(s, j, item)
    ensures r.None? ==> forall j :: k <= j < |s| ==> !MatchesAt(s, j, item)
    decreases |s| - k
  {
    if k >= |s| then None
    else if MatchesAt(s, k, item) then Some(k)
    else FindFrom(s, item, k + 1)
  }

  /** i is the position of the leftmost match of the item's pattern. */
  predicate IsLeftmost(s: string, i: nat, item: Item) {
    i < |s| && MatchesAt(s, i, item) && forall j :: 0 <= j < i ==> !MatchesAt(s, j, item)
  }

  /** The item's pattern matches nowhere. */
  predicate Absent(s: string, item: Item) {
    forall j :: 0 <= j < |s| ==> !MatchesAt(s, j, item)
  }

  /** Group 1 of `1\.\s*([\d.]+)` matched at i: the whole run of digits and dots after the whitespace. */
  function NumberCapture(s: string, i: nat): (tok: string)
    requires MatchesAt(s, i, MatchPercentage)
    ensures |tok| > 0 && All(tok, 0, |tok|, IsNumChar)
    ensures CaptureStart(s, i) + |tok| <= |s| && tok == s[CaptureStart(s, i)..CaptureStart(s, i) + |tok|]
    ensures CaptureStart(s, i) + |tok| < |s| ==> !IsNumChar(s[CaptureStart(s, i) + |tok|])
  {
    var j := CaptureStart(s, i);
    var e := SpanWhile(s, j, IsNumChar);
    var tok := s[j..e];
    assert All(tok, 0, |tok|, IsNumChar) by {
      forall k | 0 <= k < |tok| ensures IsNumChar(tok[k]) { assert tok[k] == s[j + k]; }
    }
    tok
  }

  /** Group 1 of `2\.\s*(.*)` or `3\.\s*(.*)` matched at i: the rest of the line on which the
      whitespace after the marker stops (that whitespace may cross line breaks). */
  function LineCapture(s: string, i: nat): (line: string)
    requires i + 2 <= |s|
    ensures CaptureStart(s, i) + |line| <= |s| && line == s[CaptureStart(s, i)..CaptureStart(s, i) + |line|]
    ensures OneLine(line)
    ensures CaptureStart(s, i) + |line| < |s| ==> s[CaptureStart(s, i) + |line|] == '\n'
  {
    var j := CaptureStart(s, i);
    var e := SpanWhile(s, j, NotNewline);
    var line := s[j..e];
    assert OneLine(line) by {
      forall k | 0 <= k < |line| ensures NotNewline(line[k]) { assert line[k] == s[j + k]; }
    }
    line
  }

  // ---------------------------------------------------------------------------
  // Python's float() on a run of digits and dots
  // ---------------------------------------------------------------------------

  function DotCount(s: string): nat {
    if s == [] then 0 else (if s[0] == '.' then 1 else 0) + DotCount(s[1..])
  }

  /** The characters of s other than '.'. */
  function RemoveDots(s: string): string {
    if s == [] then [] else (if s[0] == '.' then [] else [s[0]]) + RemoveDots(s[1..])
  }

  /** The number of characters after the first '.' (0 when there is none). */
  function FracLen(s: string): nat {
    if s == [] then 0 else if s[0] == '.' then |s| - 1 else FracLen(s[1..])
  }

  /** `float()` accepts a run of digits and dots exactly when it holds at most one dot and at least one digit. */
  predicate ValidDecimal(tok: string) {
    DotCount(tok) <= 1 && DotCount(tok) < |tok|
  }

  function Pow10(n: nat): (p: nat)
    ensures p >= 1
  {
    if n == 0 then 1 else 10 * Pow10(n - 1)
  }

  predicate AllDigits(s: string) { All(s, 0, |s|, IsDigit) }

  /** The integer that a string of decimal digits denotes. */
  function DigitsValue(ds: string): nat
    requires AllDigits(ds)
  {
    if ds == [] then 0
    else
      AllSlice(ds, 0, |ds| - 1, IsDigit);
      DigitsValue(ds[..|ds| - 1]) * 10 + (ds[|ds| - 1] as int - '0' as int)
  }

  lemma {:induction false} DigitsHaveNoDot(s: string)
    requires AllDigits(s)
    ensures DotCount(s) == 0 && RemoveDots(s) == s && FracLen(s) == 0
  {
    if s != [] {
      AllTail(s, IsDigit);
      DigitsHaveNoDot(s[1..]);
    }
  }

  /** Counting, removing and locating the dot through a prefix of digits. */
  lemma {:induction false} DigitsThenRest(a: string, b: string)
    requires AllDigits(a)
    ensures DotCount(a + b) == DotCount(b)
    ensures RemoveDots(a + b) == a + RemoveDots(b)
    ensures FracLen(a + b) == FracLen(b)
  {
    if a == [] {
      assert a + b == b;
    } else {
      AllTail(a, IsDigit);
      assert (a + b)[0] == a[0] && (a + b)[1..] == a[1..] + b;
      DigitsThenRest(a[1..], b);
      assert RemoveDots(a + b) == [a[0]] + RemoveDots(a[1..] + b);
    }
  }

  /** Digits, a point, digits: one dot, the digits kept in order, |f| digits after the point. */
  lemma DecimalShape(a: string, f: string)
    requires AllDigits(a) && AllDigits(f)
    ensures DotCount(a + "." + f) == 1
    ensures RemoveDots(a + "." + f) == a + f
    ensures FracLen(a + "." + f) == |f|
  {
    DigitsHaveNoDot(f);
    var rest := "." + f;
    assert a + "." + f == a + rest;
    assert rest[0] == '.' && rest[1..] == f;
    assert DotCount(rest) == 1 + DotCount(f);
    assert RemoveDots(rest) == [] + RemoveDots(f);
    assert [] + f == f;
    assert RemoveDots(rest) == f;
    assert FracLen(rest) == |rest| - 1;
    DigitsThenRest(a, rest);
  }

  /** Digits, a point, digits, then a second point: more than one dot. */
  lemma SecondDot(a: string, f: string, t: string)
    requires AllDigits(a) && AllDigits(f) && t != [] && t[0] == '.'
    ensures DotCount(a + "." + f + t) >= 2
  {
    assert a + "." + f + t == a + ("." + (f + t));
    DigitsThenRest(a, "." + (f + t));
    assert ("." + (f + t))[1..] == f + t;
    DigitsThenRest(f, t);
  }

  /** The exact value of a decimal numeral: its digits as one integer, scaled down by the
      number of digits after the point. */
  function DecimalValue(digits: nat, fracLen: nat): real {
    digits as real / Pow10(fracLen) as real
  }

  /** `float(tok)` on a run of digits and dots: None where Python raises ValueError,
      otherwise the value of the integer part and the fraction. */
  function ParseDecimal(tok: string): (r: Option<real>)
    requires All(tok, 0, |tok|, IsNumChar)
  {
    var d := SpanWhile(tok, 0, IsDigit);
    AllSlice(tok, 0, d, IsDigit);
    if d == |tok| then
      if d == 0 then None else Some(DecimalValue(DigitsValue(tok[..d]), 0))
    else
      var f := SpanWhile(tok, d + 1, IsDigit);
      if f < |tok| || |tok| == 1 then None
      else
        AllSlice(tok, d + 1, f, IsDigit);
        AllConcat(tok[..d], tok[d + 1..f], IsDigit);
        Some(DecimalValue(DigitsValue(tok[..d] + tok[d + 1..f]), f - (d + 1)))
  }

  /** float() succeeds exactly on the tokens with at most one dot and at least one digit,
      and its value is the integer written by all the digits divided by ten to the number
      of digits after the point. */
  lemma ParseDecimalSpec(tok: string)
    requires All(tok, 0, |tok|, IsNumChar)
    ensures ParseDecimal(tok).Some? <==> ValidDecimal(tok)
    ensures ParseDecimal(tok).Some? ==> AllDigits(RemoveDots(tok))
    ensures ParseDecimal(tok).Some? ==>
      ParseDecimal(tok).value == DecimalValue(DigitsValue(RemoveDots(tok)), FracLen(tok))
  {
    var d := SpanWhile(tok, 0, IsDigit);
    if d == |tok| {
      IntegerToken(tok);
    } else {
      var f := SpanWhile(tok, d + 1, IsDigit);
      if f < |tok| {
        TwoDotToken(tok, d, f);
      } else {
        PointToken(tok, d);
      }
    }
  }

  lemma IntegerToken(tok: string)
    requires AllDigits(tok) && SpanWhile(tok, 0, IsDigit) == |tok|
    ensures ParseDecimal(tok) == if tok == [] then None else Some(DecimalValue(DigitsValue(tok), 0))
    ensures ValidDecimal(tok) <==> tok != []
    ensures RemoveDots(tok) == tok && FracLen(tok) == 0
  {
    assert tok[..|tok|] == tok;
    DigitsHaveNoDot(tok);
  }

  lemma TwoDotToken(tok: string, d: nat, f: nat)
    requires All(tok, 0, |tok|, IsNumChar)
    requires d < |tok| && d == SpanWhile(tok, 0, IsDigit)
    requires f < |tok| && f == SpanWhile(tok, d + 1, IsDigit)
    ensures ParseDecimal(tok) == None && !ValidDecimal(tok)
  {
    AllSlice(tok, 0, d, IsDigit);
    AllSlice(tok, d + 1, f, IsDigit);
    assert tok[d] == '.' && tok[f] == '.';
    Pieces(tok, d, f, |tok|);
    SecondDot(tok[..d], tok[d + 1..f], tok[f..]);
  }

  lemma PointToken(tok: string, d: nat)
    requires All(tok, 0, |tok|, IsNumChar)
    requires d < |tok| && d == SpanWhile(tok, 0, IsDigit) && SpanWhile(tok, d + 1, IsDigit) == |tok|
    ensures ParseDecimal(tok).Some? <==> ValidDecimal(tok)
    ensures AllDigits(RemoveDots(tok))
    ensures ParseDecimal(tok).Some? ==>
      ParseDecimal(tok).value == DecimalValue(DigitsValue(RemoveDots(tok)), FracLen(tok))
  {
    var f := |tok|;
    AllSlice(tok, 0, d, IsDigit);
    AllSlice(tok, d + 1, f, IsDigit);
    assert tok[d] == '.';
    AllConcat(tok[..d], tok[d + 1..f], IsDigit);
    Pieces(tok, d, f, f);
    assert tok[f..] == [];
    assert tok == tok[..d] + "." + tok[d + 1..f];
    DecimalShape(tok[..d], tok[d + 1..f]);
  }

  /** A string cut around a dot at d and again at f. */
  lemma Pieces(tok: string, d: nat, f: nat, n: nat)
    requires d < f <= n == |tok| && tok[d] == '.'
    ensures tok == tok[..d] + "." + tok[d + 1..f] + tok[f..]
  {
    assert tok == tok[..d] + tok[d..];
    assert tok[d..] == [tok[d]] + tok[d + 1..];
    assert tok[d + 1..] == tok[d + 1..f] + tok[f..];
  }

  // ---------------------------------------------------------------------------
  // Parsing the reply
  // ---------------------------------------------------------------------------

  /** What can abort a batch: the similarity search raised, the model call raised, or
      float() rejected the item-1 capture. */
  datatype Failure = RetrievalFailed | JudgmentFailed | NotANumber(token: string)

  const SkillsSentinel: string := "Could not extract skills"
  const SuggestionsSentinel: string := "Could not extract suggestions"

  /** `float(match.group(1)) if match else 0.0` for `match = re.search(r"1\.\s*([\d.]+)", s)`. */
  function PercentageField(s: string): (r: Result<real, Failure>) {
    match FindFrom(s, MatchPercentage, 0)
    case None => Ok(0.0)
    case Some(i) =>
      var tok := NumberCapture(s, i);
      match ParseDecimal(tok)
      case None => Err(NotANumber(tok))
      case Some(v) => Ok(v)
  }

  /** No item-1 match gives 0.0; otherwise the leftmost capture is converted by float(),
      and a capture float() rejects raises. */
  lemma PercentageFieldSpec(s: string)
    ensures Absent(s, MatchPercentage) ==> PercentageField(s) == Ok(0.0)
    ensures forall i :: IsLeftmost(s, i, MatchPercentage) ==>
      var r, tok := PercentageField(s), NumberCapture(s, i);
      && (r.Ok? <==> ValidDecimal(tok))
      && (r.Err? ==> r.error == NotANumber(tok))
      && (r.Ok? ==> AllDigits(RemoveDots(tok))
                    && r.value == DecimalValue(DigitsValue(RemoveDots(tok)), FracLen(tok)))
  {
    match FindFrom(s, MatchPercentage, 0)
    case None =>
    case Some(i) => ParseDecimalSpec(NumberCapture(s, i));
  }

  function Sentinel(item: Item): string {
    match item
    case MatchPercentage => ""
    case SkillGaps => SkillsSentinel
    case TailoringSuggestions => SuggestionsSentinel
  }

  /** `m.group(1).strip() if m else <sentinel>` for `m = re.search(r"N\.\s*(.*)", s)`, N = 2 or 3. */
  function TextField(s: string, item: Item): (r: string)
    requires item != MatchPercentage
    ensures Absent(s, item) ==> r == Sentinel(item)
    ensures forall i :: IsLeftmost(s, i, item) ==> r == Strip(LineCapture(s, i))
  {
    match FindFrom(s, item, 0)
    case None => Sentinel(item)
    case Some(i) => Strip(LineCapture(s, i))
  }

  /** A text field that was found is one line with no surrounding whitespace. */
  lemma TextFieldIsOneLine(s: string, item: Item)
    requires item != MatchPercentage && !Absent(s, item)
    ensures OneLine(TextField(s, item)) && NoEdgeSpace(TextField(s, item))
  {
    var i := FindFrom(s, item, 0).value;
    var line := LineCapture(s, i);
    var r := Strip(line);
    var a := StripStart(line);
    forall k | 0 <= k < |r| ensures NotNewline(r[k]) { assert r[k] == line[a + k]; }
  }

  /** The three fields of one reply. */
  datatype Assessment = Assessment(matchPercentage: real, skillGaps: string, suggestions: string)

  /** Lines 86-92: each field comes from its own search with its own default, so a missing
      item affects only its own field; only the percentage can raise. */
  function ParseResponse(s: string): (r: Result<Assessment, Failure>) {
    match PercentageField(s)
    case Err(f) => Err(f)
    case Ok(v) => Ok(Assessment(v, TextField(s, SkillGaps), TextField(s, TailoringSuggestions)))
  }

  /** A reply without item 1 parses with percentage 0.0, and one with item 1 takes the exact
      value of its leftmost capture; a missing item 2 or 3 yields its sentinel, and a found one
      the stripped rest of the line at its own leftmost marker, a single line without
      surrounding whitespace; parsing fails exactly when float() rejects the leftmost item-1
      capture, with that capture. */
  lemma ParseResponseSpec(s: string)
    ensures Absent(s, MatchPercentage) ==> ParseResponse(s).Ok? && ParseResponse(s).value.matchPercentage == 0.0
    ensures ParseResponse(s).Ok? ==> forall i :: IsLeftmost(s, i, MatchPercentage) ==>
      var tok := NumberCapture(s, i);
      && AllDigits(RemoveDots(tok))
      && ParseResponse(s).value.matchPercentage == DecimalValue(DigitsValue(RemoveDots(tok)), FracLen(tok))
    ensures ParseResponse(s).Ok? && Absent(s, SkillGaps) ==> ParseResponse(s).value.skillGaps == SkillsSentinel
    ensures ParseResponse(s).Ok? ==> forall i :: IsLeftmost(s, i, SkillGaps) ==>
      ParseResponse(s).value.skillGaps == Strip(LineCapture(s, i))
    ensures ParseResponse(s).Ok? && Absent(s, TailoringSuggestions) ==>
      ParseResponse(s).value.suggestions == SuggestionsSentinel
    ensures ParseResponse(s).Ok? ==> forall i :: IsLeftmost(s, i, TailoringSuggestions) ==>
      ParseResponse(s).value.suggestions == Strip(LineCapture(s, i))
    ensures ParseResponse(s).Ok? && !Absent(s, SkillGaps) ==>
      OneLine(ParseResponse(s).value.skillGaps) && NoEdgeSpace(ParseResponse(s).value.skillGaps)
    ensures ParseResponse(s).Ok? && !Absent(s, TailoringSuggestions) ==>
      OneLine(ParseResponse(s).value.suggestions) && NoEdgeSpace(ParseResponse(s).value.suggestions)
    ensures ParseResponse(s).Err? <==>
      exists i :: IsLeftmost(s, i, MatchPercentage) && !ValidDecimal(NumberCapture(s, i))
    ensures ParseResponse(s).Err? ==>
      exists i :: IsLeftmost(s, i, MatchPercentage) && ParseResponse(s).error == NotANumber(NumberCapture(s, i))
  {
    PercentageFieldSpec(s);
    if !Absent(s, SkillGaps) { TextFieldIsOneLine(s, SkillGaps); }
    if !Absent(s, TailoringSuggestions) { TextFieldIsOneLine(s, TailoringSuggestions); }
    match FindFrom(s, MatchPercentage, 0)
    case None =>
    case Some(i) => assert IsLeftmost(s, i, MatchPercentage);
  }

  // ---------------------------------------------------------------------------
  // The per-posting loop
  // ---------------------------------------------------------------------------

  /** The library collaborators, whose code is not part of this model:
      `splitText` is CharacterTextSplitter.split_text (separator "\n", chunk size 1500,
      overlap 200); `similaritySearch` is the FAISS index over those chunks queried with
      similarity_search, None when it raises (the query is embedded through the embeddings
      API); `ask` is the question-answering chain's invoke, None when it raises. */
  datatype Collaborators = Collaborators(
    splitText: string -> seq<string>,
    similaritySearch: (seq<string>, string) -> Option<seq<string>>,
    ask: (seq<string>, string) -> Option<string>)

  /** One iteration for one posting: context, retrieval, the model's reply stripped, parsed. */
  function Assess(p: Posting, chunks: seq<string>, c: Collaborators): Result<Assessment, Failure> {
    var ctx := JobContext(p);
    match c.similaritySearch(chunks, ctx)
    case None => Err(RetrievalFailed)
    case Some(docs) =>
      match c.ask(docs, Prompt(ctx))
      case None => Err(JudgmentFailed)
      case Some(reply) => ParseResponse(Strip(reply))
  }

  /** The model's raw answer for one posting, when both the search and the call return. */
  function Reply(p: Posting, chunks: seq<string>, c: Collaborators): Option<string> {
    var ctx := JobContext(p);
    match c.similaritySearch(chunks, ctx)
    case None => None
    case Some(docs) => c.ask(docs, Prompt(ctx))
  }

  /** float() accepts the leftmost item-1 capture, if there is one. */
  ghost predicate PercentageAccepted(s: string) {
    forall i :: IsLeftmost(s, i, MatchPercentage) ==> ValidDecimal(NumberCapture(s, i))
  }

  /** Both collaborators return for the posting and float() accepts the percentage. */
  ghost predicate Answered(p: Posting, chunks: seq<string>, c: Collaborators) {
    Reply(p, chunks, c).Some? && PercentageAccepted(Strip(Reply(p, chunks, c).value))
  }

  /** One posting's iteration succeeds exactly when the search and the model call return
      and float() accepts the reply's percentage; it then yields the parsed stripped reply.
      Once both return, the outcome is the parse of the stripped reply, so a percentage
      float() rejects fails with NotANumber of that capture. A failing search is
      RetrievalFailed, a failing call after it JudgmentFailed. */
  lemma AssessSpec(p: Posting, chunks: seq<string>, c: Collaborators)
    ensures var r, reply := Assess(p, chunks, c), Reply(p, chunks, c);
      && (r.Ok? <==> Answered(p, chunks, c))
      && (reply.Some? ==> r == ParseResponse(Strip(reply.value)))
      && (c.similaritySearch(chunks, JobContext(p)).None? ==> r == Err(RetrievalFailed))
      && (c.similaritySearch(chunks, JobContext(p)).Some? && reply.None? ==> r == Err(JudgmentFailed))
  {
    var reply := Reply(p, chunks, c);
    if reply.Some? {
      ParseResponseSpec(Strip(reply.value));
    }
  }

  /** One output row: the six posting fields and the three parsed ones. */
  datatype MatchRow = MatchRow(posting: Posting, assessment: Assessment)

  /** The loop body as a value: what one iteration yields for a posting. */
  function Step(chunks: seq<string>, c: Collaborators): Posting -> Result<Assessment, Failure> {
    p => Assess(p, chunks, c)
  }

  /** The k-th posting is the first whose iteration raises. */
  predicate FailsFirstAt(jobs: seq<Posting>, step: Posting -> Result<Assessment, Failure>, k: nat) {
    && k < |jobs|
    && step(jobs[k]).Err?
    && forall j :: 0 <= j < k ==> step(jobs[j]).Ok?
  }

  /** The batch as a function of the iteration outcomes. */
  function Batch(jobs: seq<Posting>, step: Posting -> Result<Assessment, Failure>): Result<seq<MatchRow>, Failure>
    decreases |jobs|
  {
    if jobs == [] then Ok([])
    else
      match step(jobs[0])
      case Err(f) => Err(f)
      case Ok(a) => Prepend([MatchRow(jobs[0], a)], Batch(jobs[1..], step))
  }

  /** Rows already produced, in front of the outcome of the remaining iterations. */
  function Prepend(rows: seq<MatchRow>, rest: Result<seq<MatchRow>, Failure>): Result<seq<MatchRow>, Failure> {
    match rest
    case Err(f) => Err(f)
    case Ok(more) => Ok(rows + more)
  }

  lemma PrependNil(rest: Result<seq<MatchRow>, Failure>)
    ensures Prepend([], rest) == rest
  {
    if rest.Ok? { assert [] + rest.value == rest.value; }
  }

  lemma PrependPrepend(a: seq<MatchRow>, b: seq<MatchRow>, rest: Result<seq<MatchRow>, Failure>)
    ensures Prepend(a, Prepend(b, rest)) == Prepend(a + b, rest)
  {
    if rest.Ok? { assert a + (b + rest.value) == (a + b) + rest.value; }
  }

  /** One row per posting, in order, unless some iteration raises, in which case the
      whole batch fails with the error of the first one that does. */
  lemma {:induction false} BatchSpec(jobs: seq<Posting>, step: Posting -> Result<Assessment, Failure>)
    ensures var r := Batch(jobs, step);
      && (r.Ok? <==> forall k :: 0 <= k < |jobs| ==> step(jobs[k]).Ok?)
      && (r.Ok? ==> |r.value| == |jobs|)
      && (r.Ok? ==> forall k :: 0 <= k < |jobs| ==> r.value[k] == MatchRow(jobs[k], step(jobs[k]).value))
      && (r.Err? ==> exists k: nat :: FailsFirstAt(jobs, step, k) && r.error == step(jobs[k]).error)
    decreases |jobs|
  {
    if jobs != [] {
      BatchSpec(jobs[1..], step);
      assert forall k :: 1 <= k < |jobs| ==> jobs[1..][k - 1] == jobs[k];
      var r := Batch(jobs, step);
      var rest := Batch(jobs[1..], step);
      if step(jobs[0]).Err? {
        assert FailsFirstAt(jobs, step, 0);
      } else if rest.Err? {
        var k: nat :| FailsFirstAt(jobs[1..], step, k) && rest.error == step(jobs[1..][k]).error;
        assert FailsFirstAt(jobs, step, k + 1);
      } else {
        assert r.value == [MatchRow(jobs[0], step(jobs[0]).value)] + rest.value;
      }
    }
  }

  /** When the k-th iteration is the first to raise, the batch fails with its error. */
  lemma FirstFailureIs(jobs: seq<Posting>, step: Posting -> Result<Assessment, Failure>, k: nat)
    requires FailsFirstAt(jobs, step, k)
    ensures Batch(jobs, step) == Err(step(jobs[k]).error)
  {
    BatchSpec(jobs, step);
    var r := Batch(jobs, step);
    var k': nat :| FailsFirstAt(jobs, step, k') && r.error == step(jobs[k']).error;
    assert k' == k;
  }

  /** Rows already assessed are not returned when a later posting raises: with three
      postings and a failing second one, the batch yields only the error. */
  lemma EarlierRowsDiscarded(p1: Posting, p2: Posting, p3: Posting, step: Posting -> Result<Assessment, Failure>)
    requires step(p1).Ok? && step(p2).Err?
    ensures Batch([p1, p2, p3], step) == Err(step(p2).error)
  {
    FirstFailureIs([p1, p2, p3], step, 1);
  }

  /** End to end: the batch has a row for every posting exactly when, for every posting,
      the search and the model call return and float() accepts the percentage of the
      stripped reply; row k then pairs posting k with the parse of its stripped reply.
      Otherwise the batch fails with the outcome of the first posting that is not answered. */
  lemma BatchOutcome(jobs: seq<Posting>, chunks: seq<string>, c: Collaborators)
    ensures var r := Batch(jobs, Step(chunks, c));
      && (r.Ok? <==> forall k :: 0 <= k < |jobs| ==> Answered(jobs[k], chunks, c))
      && (r.Ok? ==> |r.value| == |jobs|)
      && (r.Ok? ==> forall k :: 0 <= k < |jobs| ==>
            && r.value[k].posting == jobs[k]
            && ParseResponse(Strip(Reply(jobs[k], chunks, c).value)) == Ok(r.value[k].assessment))
      && (r.Err? ==> exists k: nat ::
            && FailsFirstAt(jobs, Step(chunks, c), k)
            && !Answered(jobs[k], chunks, c)
            && Assess(jobs[k], chunks, c) == Err(r.error))
  {
    var step := Step(chunks, c);
    BatchSpec(jobs, step);
    forall k | 0 <= k < |jobs|
      ensures step(jobs[k]).Ok? <==> Answered(jobs[k], chunks, c)
      ensures step(jobs[k]).Ok? ==> ParseResponse(Strip(Reply(jobs[k], chunks, c).value)) == step(jobs[k])
    {
      AssessSpec(jobs[k], chunks, c);
    }
  }

  /** Lines 42-105: `evaluate_job_matches`. The splitter runs once; for each posting in
      turn the context is rendered, résumé chunks are retrieved with it, the model is asked,
      and the stripped reply is parsed into a row; the exception of any iteration aborts
      the batch. */
  method EvaluateJobMatches(jobs: seq<Posting>, resumeText: string, c: Collaborators)
    returns (r: Result<seq<MatchRow>, Failure>)
    ensures r == Batch(jobs, Step(c.splitText(resumeText), c))
  {
    var chunks := c.splitText(resumeText);
    ghost var step := Step(chunks, c);
    var results: seq<MatchRow> := [];
    var i := 0;
    assert jobs[0..] == jobs;
    PrependNil(Batch(jobs, step));
    while i < |jobs|
      invariant 0 <= i <= |jobs|
      invariant Batch(jobs, step) == Prepend(results, Batch(jobs[i..], step))
    {
      var row := jobs[i];
      assert jobs[i..][0] == row && jobs[i..][1..] == jobs[i + 1..];
      assert step(row) == Assess(row, chunks, c);
      var jobContext := JobContext(row);
      var docs := c.similaritySearch(chunks, jobContext);
      if docs.None? {
        return Err(RetrievalFailed);
      }
      var promptQuery := Prompt(jobContext);
      var response := c.ask(docs.value, promptQuery);
      if response.None? {
        return Err(JudgmentFailed);
      }
      var responseText := Strip(response.value);
      var assessment := ParseResponse(responseText);
      if assessment.Err? {
        return Err(assessment.error);
      }
      PrependPrepend(results, [MatchRow(row, assessment.value)], Batch(jobs[i + 1..], step));
      results := results + [MatchRow(row, assessment.value)];
      i := i + 1;
    }
    assert jobs[i..] == [];
    assert results + [] == results;
    return Ok(results);
  }
}
