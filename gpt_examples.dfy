/** Worked replies and numerals for the reply parser of utilities/gpt_parser.py. */
module GptExamples {
  import opened PyText
  import opened Postings
  import opened GptParser

  lemma TextFieldIs(s: string, item: Item, i: nat, j: nat, e: nat)
    requires item != MatchPercentage && IsLeftmost(s, i, item)
    requires i + 2 <= j <= e <= |s| && All(s, i + 2, j, IsSpace) && (j < |s| ==> !IsSpace(s[j]))
    requires All(s, j, e, NotNewline) && (e < |s| ==> s[e] == '\n')
    requires NoEdgeSpace(s[j..e])
    ensures TextField(s, item) == s[j..e]
  {
    SpanWhileAt(s, i + 2, j, IsSpace);
    SpanWhileAt(s, j, e, NotNewline);
    StripNoEdge(s[j..e]);
  }

  lemma Integer87()
    ensures ParseDecimal("87") == Some(87.0)
  {
    ParseDecimalSpec("87");
    DigitsHaveNoDot("87");
    assert DigitsValue("87") == 87;
  }

  lemma Decimal925()
    ensures ParseDecimal("92.5") == Some(92.5)
  {
    var tok := "92.5";
    Shape925();
    Digits925();
    ParseDecimalSpec(tok);
    assert DecimalValue(925, 1) == 92.5;
  }

  lemma Shape925()
    ensures ValidDecimal("92.5") && RemoveDots("92.5") == "925" && FracLen("92.5") == 1
  {
    DecimalShape("92", "5");
    assert "92.5" == "92" + "." + "5";
  }

  lemma Digits925()
    ensures DigitsValue("925") == 925
  {
    assert "925"[..2] == "92" && "92"[..1] == "9" && "9"[..0] == "";
    assert DigitsValue("9") == 9;
    assert DigitsValue("92") == 92;
  }

  lemma LoneDot()
    ensures ParseDecimal(".") == None
  {
    ParseDecimalSpec(".");
  }

  lemma TwoDots()
    ensures ParseDecimal("1.2.3") == None
  {
    ParseDecimalSpec("1.2.3");
    SecondDot("1", "2", ".3");
    assert "1.2.3" == "1" + "." + "2" + ".3";
  }

  /** A reply that begins "1. 87" followed by a line break or nothing has percentage 87.0. */
  lemma Percentage87(s: string)
    requires |s| >= 5 && s[0] == '1' && s[1] == '.' && s[2] == ' ' && s[3] == '8' && s[4] == '7'
    requires |s| > 5 ==> s[5] == '\n'
    ensures PercentageField(s) == Ok(87.0)
  {
    SpanWhileAt(s, 2, 3, IsSpace);
    assert IsLeftmost(s, 0, MatchPercentage);
    SpanWhileAt(s, 3, 5, IsNumChar);
    assert s[3..5] == "87";
    PercentageFieldSpec(s);
    Integer87();
  }

  const Skills: string := "Docker, Kubernetes"
  const Advice: string := "Emphasize cloud experience"

  /** The reply of a model that follows the prompt:
      "1. 87\n2. Docker, Kubernetes\n3. Emphasize cloud experience". */
  const SampleReply: string := "1. 87\n2. " + Skills + "\n3. " + Advice

  lemma SkillsChars()
    ensures |Skills| == 18 && Skills[0] == 'D' && Skills[17] == 's'
    ensures forall k :: 0 <= k < |Skills| ==> Skills[k] != '\n' && Skills[k] != '3'
  {
    var s := Skills;
    assert s[0] == 'D' && s[1] == 'o' && s[2] == 'c' && s[3] == 'k' && s[4] == 'e' && s[5] == 'r';
    assert s[6] == ',' && s[7] == ' ' && s[8] == 'K' && s[9] == 'u' && s[10] == 'b' && s[11] == 'e';
    assert s[12] == 'r' && s[13] == 'n' && s[14] == 'e' && s[15] == 't' && s[16] == 'e' && s[17] == 's';
  }

  lemma AdviceChars()
    ensures |Advice| == 26 && Advice[0] == 'E' && Advice[25] == 'e'
    ensures forall k :: 0 <= k < |Advice| ==> Advice[k] != '\n'
  {
    var s := Advice;
    assert s[0] == 'E' && s[1] == 'm' && s[2] == 'p' && s[3] == 'h' && s[4] == 'a' && s[5] == 's';
    assert s[6] == 'i' && s[7] == 'z' && s[8] == 'e' && s[9] == ' ' && s[10] == 'c' && s[11] == 'l';
    assert s[12] == 'o' && s[13] == 'u' && s[14] == 'd' && s[15] == ' ' && s[16] == 'e' && s[17] == 'x';
    assert s[18] == 'p' && s[19] == 'e' && s[20] == 'r' && s[21] == 'i' && s[22] == 'e' && s[23] == 'n';
    assert s[24] == 'c' && s[25] == 'e';
  }

  /** Where the three lines of SampleReply and their texts lie. */
  lemma ReplyLayout()
    ensures |SampleReply| == 57
    ensures SampleReply[0] == '1' && SampleReply[1] == '.' && SampleReply[2] == ' ' && SampleReply[3] == '8' && SampleReply[4] == '7'
    ensures SampleReply[5] == '\n' && SampleReply[6] == '2' && SampleReply[7] == '.' && SampleReply[8] == ' '
    ensures forall k :: 9 <= k < 27 ==> SampleReply[k] == Skills[k - 9]
    ensures SampleReply[27] == '\n' && SampleReply[28] == '3' && SampleReply[29] == '.' && SampleReply[30] == ' '
    ensures forall k :: 31 <= k < 57 ==> SampleReply[k] == Advice[k - 31]
  {
    var mid := "\n3. ";
    assert mid[0] == '\n' && mid[1] == '3' && mid[2] == '.' && mid[3] == ' ' && |mid| == 4;
    ReplyFront();
    AdviceChars();
  }

  /** The first two lines of SampleReply. */
  lemma ReplyFront()
    ensures var f := "1. 87\n2. " + Skills;
      && |f| == 27 && f[0] == '1' && f[1] == '.' && f[2] == ' ' && f[3] == '8' && f[4] == '7'
      && f[5] == '\n' && f[6] == '2' && f[7] == '.' && f[8] == ' '
      && forall k :: 9 <= k < 27 ==> f[k] == Skills[k - 9]
  {
    var head := "1. 87\n2. ";
    assert head[0] == '1' && head[1] == '.' && head[2] == ' ' && head[3] == '8' && head[4] == '7';
    assert head[5] == '\n' && head[6] == '2' && head[7] == '.' && head[8] == ' ' && |head| == 9;
    SkillsChars();
  }

  lemma ReplySkills()
    ensures TextField(SampleReply, SkillGaps) == Skills
  {
    var s := SampleReply;
    ReplyLayout();
    SkillsChars();
    assert forall j :: 0 <= j < 6 ==> !MarkerAt(s, j, '2');
    assert IsLeftmost(s, 6, SkillGaps);
    assert s[9] == 'D';
    assert s[9..27] == Skills;
    TextFieldIs(s, SkillGaps, 6, 9, 27);
  }

  lemma ReplySuggestions()
    ensures TextField(SampleReply, TailoringSuggestions) == Advice
  {
    var s := SampleReply;
    ReplyLayout();
    SkillsChars();
    AdviceChars();
    forall j | 0 <= j < 28 ensures !MarkerAt(s, j, '3') {
      if 9 <= j < 27 { assert s[j] == Skills[j - 9]; }
    }
    assert IsLeftmost(s, 28, TailoringSuggestions);
    assert s[31] == 'E';
    assert s[31..57] == Advice;
    TextFieldIs(s, TailoringSuggestions, 28, 31, 57);
  }

  /** Item 2 is searched for anywhere, so "2." inside "92.5" is found before the line "2. Go". */
  lemma SkillsFromInsideNumber()
    ensures TextField("1. 92.5\n2. Go", SkillGaps) == "5"
  {
    var s := "1. 92.5\n2. Go";
    assert s[3] == '9' && s[4] == '2' && s[5] == '.' && s[6] == '5' && s[7] == '\n';
    assert !MarkerAt(s, 0, '2') && !MarkerAt(s, 1, '2') && !MarkerAt(s, 2, '2') && !MarkerAt(s, 3, '2');
    assert forall j :: 0 <= j < 4 ==> !MatchesAt(s, j, SkillGaps);
    assert IsLeftmost(s, 4, SkillGaps);
    assert s[6..7] == "5";
    TextFieldIs(s, SkillGaps, 4, 6, 7);
  }

  /** A reply holding only item 1 gets both sentinels. */
  lemma MissingItems()
    ensures ParseResponse("1. 87") == Ok(Assessment(87.0, SkillsSentinel, SuggestionsSentinel))
  {
    var s := "1. 87";
    assert s[0] == '1' && s[1] == '.' && s[2] == ' ' && s[3] == '8' && s[4] == '7' && |s| == 5;
    Percentage87(s);
    OnlyItemOne();
  }

  lemma OnlyItemOne()
    ensures Absent("1. 87", SkillGaps) && Absent("1. 87", TailoringSuggestions)
  {
    var s := "1. 87";
    assert s[0] == '1' && s[1] == '.' && s[2] == ' ' && s[3] == '8' && s[4] == '7' && |s| == 5;
  }

  /** A missing item 2 yields its sentinel and leaves item 3 alone. */
  lemma SkillsMissing()
    ensures ParseResponse("1. 87\n3. SQL") == Ok(Assessment(87.0, SkillsSentinel, "SQL"))
  {
    var s := "1. 87\n3. SQL";
    NoSkillsChars();
    Percentage87(s);
    NoSkillsAbsent();
    NoSkillsSuggestions();
  }

  lemma NoSkillsChars()
    ensures var s := "1. 87\n3. SQL";
      && |s| == 12 && s[0] == '1' && s[1] == '.' && s[2] == ' ' && s[3] == '8' && s[4] == '7'
      && s[5] == '\n' && s[6] == '3' && s[7] == '.' && s[8] == ' ' && s[9] == 'S' && s[10] == 'Q'
      && s[11] == 'L'
  {
  }

  lemma NoSkillsAbsent()
    ensures Absent("1. 87\n3. SQL", SkillGaps)
  {
    var s := "1. 87\n3. SQL";
    NoSkillsChars();
    assert forall j :: 0 <= j < |s| ==> s[j] != '2';
  }

  lemma NoSkillsSuggestions()
    ensures TextField("1. 87\n3. SQL", TailoringSuggestions) == "SQL"
  {
    var s := "1. 87\n3. SQL";
    NoSkillsChars();
    assert forall j :: 0 <= j < 6 ==> !MarkerAt(s, j, '3');
    assert IsLeftmost(s, 6, TailoringSuggestions);
    assert s[9..12] == "SQL";
    TextFieldIs(s, TailoringSuggestions, 6, 9, 12);
  }

  /** A capture float() rejects aborts the parse with that capture. */
  lemma RejectedNumber()
    ensures ParseResponse("1. .") == Err(NotANumber("."))
  {
    var s := "1. .";
    assert s[0] == '1' && s[1] == '.' && s[2] == ' ' && s[3] == '.' && |s| == 4;
    SpanWhileAt(s, 2, 3, IsSpace);
    assert IsLeftmost(s, 0, MatchPercentage);
    SpanWhileAt(s, 3, 4, IsNumChar);
    assert s[3..4] == ".";
    PercentageFieldSpec(s);
    LoneDot();
  }

  /** The reply that follows the prompt parses into its three fields: 87.0,
      "Docker, Kubernetes" and "Emphasize cloud experience". */
  lemma WellFormedReply()
    ensures ParseResponse(SampleReply) == Ok(Assessment(87.0, Skills, Advice))
  {
    ReplyLayout();
    Percentage87(SampleReply);
    ReplySkills();
    ReplySuggestions();
  }
}
