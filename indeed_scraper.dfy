/** The pure parts of utilities/indeed_scraper.py: the description cleaner, the two label
    tables, the actor's input record, and the projection of the actor's items onto the
    posting schema. */
module IndeedScraper {
  import opened PyText
  import opened Postings

  // ---------------------------------------------------------------------------
  // re.sub(r"<.*?>", repl, text)
  // ---------------------------------------------------------------------------

  /** What the lazy `.*?` may pass over before the closing '>' is tried: anything but a line
      break, and the first '>' ends the match. */
  predicate NotTagEnd(c: char) { c != '>' && c != '\n' }

  /** The first '>' or line break after the '<' at p (or the end of the text). */
  function TagEnd(s: string, p: nat): (j: nat)
    requires p < |s|
    ensures p < j <= |s| && All(s, p + 1, j, NotTagEnd)
    ensures j < |s| ==> !NotTagEnd(s[j])
  {
    SpanWhile(s, p + 1, NotTagEnd)
  }

  /** `<.*?>` matches at p, and then it spans s[p..TagEnd(s, p) + 1]. */
  predicate TagAt(s: string, p: nat)
    requires p < |s|
  {
    s[p] == '<' && TagEnd(s, p) < |s| && s[TagEnd(s, p)] == '>'
  }

  /** The pattern's own reading: `<`, then characters other than a line break, then `>`;
      the lazy match ends at the first '>' after the '<'. */
  lemma TagAtIff(s: string, p: nat)
    requires p < |s|
    ensures TagAt(s, p) <==>
      s[p] == '<' && exists j :: p < j < |s| && s[j] == '>' && All(s, p + 1, j, NotNewline)
    ensures TagAt(s, p) ==> forall k :: p < k < TagEnd(s, p) ==> s[k] != '>'
  {
    var e := TagEnd(s, p);
    if TagAt(s, p) {
      assert All(s, p + 1, e, NotNewline) by {
        forall k | p + 1 <= k < e ensures NotNewline(s[k]) { assert NotTagEnd(s[k]); }
      }
    }
    if s[p] == '<' && exists j :: p < j < |s| && s[j] == '>' && All(s, p + 1, j, NotNewline) {
      var j :| p < j < |s| && s[j] == '>' && All(s, p + 1, j, NotNewline);
      if e < j {
        assert NotNewline(s[e]);
      }
    }
  }

  /** The text from p on with every match of `<.*?>` replaced by repl, scanning left to right. */
  function SubTags(s: string, p: nat, repl: string): string
    requires p <= |s|
    decreases |s| - p
  {
    if p == |s| then []
    else if TagAt(s, p) then repl + SubTags(s, TagEnd(s, p) + 1, repl)
    else [s[p]] + SubTags(s, p + 1, repl)
  }

  /** Text without '<' holds no tag and is left as it is. */
  lemma {:induction false} SubTagsWithoutTags(s: string, p: nat, repl: string)
    requires p <= |s| && forall k :: p <= k < |s| ==> s[k] != '<'
    ensures SubTags(s, p, repl) == s[p..]
    decreases |s| - p
  {
    if p < |s| {
      SubTagsWithoutTags(s, p + 1, repl);
      assert s[p..] == [s[p]] + s[p + 1..];
    }
  }

  /** Replacing tags by a space or by nothing keeps the same non-whitespace characters. */
  lemma {:induction false} SubTagsNonSpace(s: string, p: nat)
    requires p <= |s|
    ensures NonSpace(SubTags(s, p, " ")) == NonSpace(SubTags(s, p, ""))
    decreases |s| - p
  {
    if p < |s| {
      if TagAt(s, p) {
        var rest := TagEnd(s, p) + 1;
        SubTagsNonSpace(s, rest);
        NonSpaceConcat(" ", SubTags(s, rest, " "));
        assert NonSpace(" ") == [];
        assert "" + SubTags(s, rest, "") == SubTags(s, rest, "");
      } else {
        SubTagsNonSpace(s, p + 1);
        NonSpaceConcat([s[p]], SubTags(s, p + 1, " "));
        NonSpaceConcat([s[p]], SubTags(s, p + 1, ""));
      }
    }
  }

  // ---------------------------------------------------------------------------
  // re.sub(r"\s+", " ", text)
  // ---------------------------------------------------------------------------

  /** Every maximal run of whitespace replaced by one plain space. */
  function Collapse(s: string): (r: string)
    ensures s != [] ==> r != [] && (IsSpace(r[0]) <==> IsSpace(s[0]))
    ensures s != [] ==> (IsSpace(r[|r| - 1]) <==> IsSpace(s[|s| - 1]))
    ensures SingleSpaced(r)
    decreases |s|
  {
    if s == [] then []
    else if IsSpace(s[0]) then
      var j := SpanWhile(s, 0, IsSpace);
      var rest := Collapse(s[j..]);
      assert j < |s| ==> s[j..][|s| - j - 1] == s[|s| - 1];
      assert SingleSpaced(" " + rest) by {
        forall k | 0 <= k < |rest| ensures (" " + rest)[k + 1] == rest[k] { }
      }
      " " + rest
    else
      var rest := Collapse(s[1..]);
      assert |s| > 1 ==> s[1..][|s| - 2] == s[|s| - 1];
      assert SingleSpaced([s[0]] + rest) by {
        forall k | 0 <= k < |rest| ensures ([s[0]] + rest)[k + 1] == rest[k] { }
      }
      [s[0]] + rest
  }

  /** Collapsing only rewrites whitespace. */
  lemma {:induction false} CollapseKeepsNonSpace(s: string)
    ensures NonSpace(Collapse(s)) == NonSpace(s)
    decreases |s|
  {
    if s != [] {
      if IsSpace(s[0]) {
        var j := SpanWhile(s, 0, IsSpace);
        CollapseKeepsNonSpace(s[j..]);
        NonSpaceConcat(" ", Collapse(s[j..]));
        assert NonSpace(" ") == [];
        NonSpaceDrop(s, j);
      } else {
        CollapseKeepsNonSpace(s[1..]);
        NonSpaceConcat([s[0]], Collapse(s[1..]));
      }
    }
  }

  /** Text that is already single-spaced is left as it is. */
  lemma {:induction false} CollapseSingleSpaced(s: string)
    requires SingleSpaced(s)
    ensures Collapse(s) == s
    decreases |s|
  {
    if s != [] {
      SingleSpacedSlice(s, 1, |s|);
      if IsSpace(s[0]) {
        SpanWhileAt(s, 0, 1, IsSpace);
      }
      CollapseSingleSpaced(s[1..]);
    }
  }

  /** A boundary right after a non-whitespace character is never inside a whitespace run,
      so collapsing the two sides separately gives the same text. */
  lemma {:induction false} CollapseConcat(a: string, b: string)
    requires a == [] || !IsSpace(a[|a| - 1])
    ensures Collapse(a + b) == Collapse(a) + Collapse(b)
    decreases |a|
  {
    if a == [] {
      assert a + b == b;
    } else if IsSpace(a[0]) {
      var j := CollapseSpaceStep(a, b);
      CollapseConcat(a[j..], b);
      SeqAssoc(" ", Collapse(a[j..]), Collapse(b));
    } else {
      CollapseWordStep(a, b);
      CollapseConcat(a[1..], b);
      SeqAssoc([a[0]], Collapse(a[1..]), Collapse(b));
    }
  }

  lemma SeqAssoc(u: string, v: string, w: string)
    ensures u + (v + w) == (u + v) + w
  {
  }

  /** One step of CollapseConcat at a leading whitespace run, which ends inside a. */
  lemma CollapseSpaceStep(a: string, b: string) returns (j: nat)
    requires a != [] && IsSpace(a[0]) && !IsSpace(a[|a| - 1])
    ensures 0 < j < |a| && !IsSpace(a[j..][|a[j..]| - 1])
    ensures Collapse(a + b) == " " + Collapse(a[j..] + b) && Collapse(a) == " " + Collapse(a[j..])
  {
    j := SpanWhile(a, 0, IsSpace);
    assert SpanWhile(a + b, 0, IsSpace) == j by {
      forall k | 0 <= k < j ensures IsSpace((a + b)[k]) { assert (a + b)[k] == a[k]; }
      assert (a + b)[j] == a[j];
      SpanWhileAt(a + b, 0, j, IsSpace);
    }
    assert (a + b)[j..] == a[j..] + b;
    assert a[j..][|a| - j - 1] == a[|a| - 1];
  }

  /** One step of CollapseConcat at a leading non-whitespace character. */
  lemma CollapseWordStep(a: string, b: string)
    requires a != [] && !IsSpace(a[0]) && !IsSpace(a[|a| - 1])
    ensures a[1..] == [] || !IsSpace(a[1..][|a[1..]| - 1])
    ensures Collapse(a + b) == [a[0]] + Collapse(a[1..] + b) && Collapse(a) == [a[0]] + Collapse(a[1..])
  {
    assert (a + b)[0] == a[0] && (a + b)[1..] == a[1..] + b;
    assert |a| > 1 ==> a[1..][|a| - 2] == a[|a| - 1];
  }

  /** A whitespace run of any length and kind, up to the next word or the end, becomes
      one plain space. */
  lemma CollapseRun(w: string, y: string)
    requires w != [] && All(w, 0, |w|, IsSpace)
    requires y == [] || !IsSpace(y[0])
    ensures Collapse(w + y) == " " + Collapse(y)
  {
    forall k | 0 <= k < |w| ensures IsSpace((w + y)[k]) { assert (w + y)[k] == w[k]; }
    if y != [] { assert (w + y)[|w|] == y[0]; }
    SpanWhileAt(w + y, 0, |w|, IsSpace);
    assert (w + y)[|w|..] == y;
  }

  /** Between two words, whatever whitespace run separates them becomes exactly one space,
      and each side is collapsed on its own. */
  lemma CollapseSeparates(x: string, w: string, y: string)
    requires x == [] || !IsSpace(x[|x| - 1])
    requires w != [] && All(w, 0, |w|, IsSpace)
    requires y == [] || !IsSpace(y[0])
    ensures Collapse(x + w + y) == Collapse(x) + " " + Collapse(y)
  {
    assert x + w + y == x + (w + y);
    CollapseConcat(x, w + y);
    CollapseRun(w, y);
    SeqAssoc(Collapse(x), " ", Collapse(y));
  }

  // ---------------------------------------------------------------------------
  // clean_job_description
  // ---------------------------------------------------------------------------

  /** Lines 14-19: tags become spaces, whitespace runs become one space, the ends are stripped. */
  function CleanJobDescription(text: string): (r: string)
    ensures NoEdgeSpace(r)
    ensures SingleSpaced(r)
  {
    var collapsed := Collapse(SubTags(text, 0, " "));
    StripSingleSpaced(collapsed);
    Strip(collapsed)
  }

  /** The cleaned text holds exactly the non-whitespace characters of the input that lie
      outside the removed tags, in their order. */
  lemma CleanKeepsText(text: string)
    ensures NonSpace(CleanJobDescription(text)) == NonSpace(SubTags(text, 0, ""))
  {
    var collapsed := Collapse(SubTags(text, 0, " "));
    StripKeepsNonSpace(collapsed);
    CollapseKeepsNonSpace(SubTags(text, 0, " "));
    SubTagsNonSpace(text, 0);
  }

  /** Text with no '<', no whitespace at its ends and only single plain spaces is unchanged. */
  lemma CleanAlreadyClean(text: string)
    requires forall k :: 0 <= k < |text| ==> text[k] != '<'
    requires NoEdgeSpace(text) && SingleSpaced(text)
    ensures CleanJobDescription(text) == text
  {
    SubTagsWithoutTags(text, 0, " ");
    assert text[0..] == text;
    CollapseSingleSpaced(text);
    StripNoEdge(text);
  }

  /** A tag between two words leaves exactly one space between their cleaned forms. */
  lemma CleanSeparatesAtTag(x: string, t: string, y: string)
    requires forall k :: 0 <= k < |x| ==> x[k] != '<'
    requires x != [] && !IsSpace(x[|x| - 1])
    requires IsTag(t)
    requires y != [] && !IsSpace(y[0]) && y[0] != '<'
    ensures CleanJobDescription(x + t + y) == CleanJobDescription(x) + " " + CleanJobDescription(y)
  {
    SubTagsAroundTag(x, t, y);
    assert All(" ", 0, 1, IsSpace) by { assert " "[0] == ' '; }
    CleanJoin(x, " ", y);
  }

  /** A whitespace run between two words leaves exactly one space between their cleaned forms. */
  lemma CleanSeparatesAtSpace(x: string, w: string, y: string)
    requires forall k :: 0 <= k < |x| ==> x[k] != '<'
    requires x != [] && !IsSpace(x[|x| - 1])
    requires w != [] && All(w, 0, |w|, IsSpace)
    requires y != [] && !IsSpace(y[0]) && y[0] != '<'
    ensures CleanJobDescription(x + w + y) == CleanJobDescription(x) + " " + CleanJobDescription(y)
  {
    var s := x + w + y;
    forall k | 0 <= k < |x| + |w| ensures s[k] != '<' {
      if k < |x| { assert s[k] == x[k]; } else { assert s[k] == w[k - |x|]; }
    }
    SubTagsPrefix(s, 0, |x| + |w|, " ");
    assert s == (x + w) + y && s[0..|x| + |w|] == x + w;
    SubTagsShift(x + w, y, 0, " ");
    assert SubTags(s, 0, " ") == x + w + SubTags(y, 0, " ");
    CleanJoin(x, w, y);
  }

  /** The common step: once the gap is whitespace, collapsing and stripping work on each side. */
  lemma CleanJoin(x: string, w: string, y: string)
    requires forall k :: 0 <= k < |x| ==> x[k] != '<'
    requires x != [] && !IsSpace(x[|x| - 1])
    requires w != [] && All(w, 0, |w|, IsSpace)
    requires y != [] && !IsSpace(y[0]) && y[0] != '<'
    ensures Strip(Collapse(x + w + SubTags(y, 0, " ")))
         == CleanJobDescription(x) + " " + CleanJobDescription(y)
  {
    var ys := SubTags(y, 0, " ");
    assert !TagAt(y, 0) && ys == [y[0]] + SubTags(y, 1, " ");
    CollapseSeparates(x, w, ys);
    SubTagsWithoutTags(x, 0, " ");
    assert x[0..] == x;
    StripJoin(Collapse(x), Collapse(ys));
  }

  /** "a<b>c" becomes "a c". */
  lemma CleanTagBetweenWords()
    ensures CleanJobDescription("a<b>c") == "a c"
  {
    var x, t, y := "a", "<b>", "c";
    BoldTag();
    assert x[0] == 'a' && y[0] == 'c';
    CleanSeparatesAtTag(x, t, y);
    CleanLetters();
    Spelling();
  }

  lemma Spelling()
    ensures "a" + "<b>" + "c" == "a<b>c" && "a" + " " + "c" == "a c"
  {
    var u, v := "a" + "<b>" + "c", "a" + " " + "c";
    assert u[0] == 'a' && u[1] == '<' && u[2] == 'b' && u[3] == '>' && u[4] == 'c';
    assert v[0] == 'a' && v[1] == ' ' && v[2] == 'c';
  }

  lemma BoldTag()
    ensures IsTag("<b>")
  {
    var t := "<b>";
    assert t[0] == '<' && t[1] == 'b' && t[2] == '>';
  }

  lemma CleanLetters()
    ensures CleanJobDescription("a") == "a" && CleanJobDescription("c") == "c"
  {
    assert "a"[0] == 'a' && "c"[0] == 'c';
    CleanAlreadyClean("a");
    CleanAlreadyClean("c");
  }

  /** "<p>Hello</p>" becomes "Hello". */
  lemma CleanParagraph()
    ensures CleanJobDescription("<p>Hello</p>") == "Hello"
  {
    ParagraphTags();
    ParagraphSpaces();
  }

  lemma ParagraphSpaces()
    ensures Collapse(" Hello ") == " Hello " && Strip(" Hello ") == "Hello"
  {
    HelloChars();
    CollapseSingleSpaced(" Hello ");
    assert " Hello "[1..6] == "Hello";
    StripIs(" Hello ", 1, 6);
  }

  lemma HelloChars()
    ensures SingleSpaced(" Hello ") && IsSpace(" Hello "[0]) && IsSpace(" Hello "[6])
    ensures !IsSpace(" Hello "[1]) && !IsSpace(" Hello "[5]) && |" Hello "| == 7
  {
    var s := " Hello ";
    assert s[0] == ' ' && s[1] == 'H' && s[2] == 'e' && s[3] == 'l' && s[4] == 'l' && s[5] == 'o' && s[6] == ' ';
    assert forall k :: 1 <= k < 6 ==> !IsSpace(s[k]);
  }

  lemma ParagraphTags()
    ensures SubTags("<p>Hello</p>", 0, " ") == " Hello "
  {
    var s := "<p>Hello</p>";
    assert s[0] == '<' && s[1] == 'p' && s[2] == '>';
    SpanWhileAt(s, 1, 2, NotTagEnd);
    ClosingTag();
    assert s[3..8] == "Hello";
    SubTagsPrefix(s, 3, 8, " ");
  }

  lemma ClosingTag()
    ensures SubTags("<p>Hello</p>", 8, " ") == " "
  {
    var s := "<p>Hello</p>";
    assert s[8] == '<' && s[9] == '/' && s[10] == 'p' && s[11] == '>' && |s| == 12;
    SpanWhileAt(s, 9, 11, NotTagEnd);
  }

  /** Characters that are not '<' are copied one by one. */
  lemma {:induction false} SubTagsPrefix(s: string, p: nat, q: nat, repl: string)
    requires p <= q <= |s| && forall k :: p <= k < q ==> s[k] != '<'
    ensures SubTags(s, p, repl) == s[p..q] + SubTags(s, q, repl)
    decreases q - p
  {
    if p < q {
      assert !TagAt(s, p);
      assert SubTags(s, p, repl) == [s[p]] + SubTags(s, p + 1, repl);
      SubTagsPrefix(s, p + 1, q, repl);
      assert s[p..q] == [s[p]] + s[p + 1..q];
    }
  }

  /** A complete match of `<.*?>`: '<', characters other than '>' and line breaks, '>'. */
  predicate IsTag(t: string) {
    |t| >= 2 && t[0] == '<' && t[|t| - 1] == '>' && All(t, 1, |t| - 1, NotTagEnd)
  }

  /** Scanning the second part of a concatenation does not depend on the first. */
  lemma {:induction false} SubTagsShift(a: string, b: string, p: nat, repl: string)
    requires p <= |b|
    ensures SubTags(a + b, |a| + p, repl) == SubTags(b, p, repl)
    decreases |b| - p
  {
    if p < |b| {
      var s := a + b;
      TagAtShift(a, b, p);
      if TagAt(b, p) {
        var e := TagEnd(b, p);
        SubTagsShift(a, b, e + 1, repl);
        assert SubTags(s, |a| + p, repl) == repl + SubTags(s, |a| + (e + 1), repl);
      } else {
        SubTagsShift(a, b, p + 1, repl);
        assert SubTags(s, |a| + p, repl) == [s[|a| + p]] + SubTags(s, |a| + (p + 1), repl);
      }
    }
  }

  /** Whether a tag starts at p, and where it ends, does not depend on text in front. */
  lemma TagAtShift(a: string, b: string, p: nat)
    requires p < |b|
    ensures (a + b)[|a| + p] == b[p]
    ensures TagEnd(a + b, |a| + p) == |a| + TagEnd(b, p)
    ensures TagAt(a + b, |a| + p) <==> TagAt(b, p)
  {
    var e := TagEnd(b, p);
    SpanWhileShift(a, b, p + 1, NotTagEnd);
    if e < |b| { assert (a + b)[|a| + e] == b[e]; }
  }

  /** Text without '<', a tag, and text after it: the tag alone is replaced there. */
  lemma SubTagsAroundTag(x: string, t: string, y: string)
    requires forall k :: 0 <= k < |x| ==> x[k] != '<'
    requires IsTag(t)
    ensures SubTags(x + t + y, 0, " ") == x + " " + SubTags(y, 0, " ")
  {
    var s := x + t + y;
    forall k | 0 <= k < |x| ensures s[k] != '<' { assert s[k] == x[k]; }
    SubTagsPrefix(s, 0, |x|, " ");
    assert s[0..|x|] == x;
    forall k | |x| + 1 <= k < |x| + |t| - 1 ensures NotTagEnd(s[k]) { assert s[k] == t[k - |x|]; }
    assert s[|x|] == '<' && s[|x| + |t| - 1] == '>';
    SpanWhileAt(s, |x| + 1, |x| + |t| - 1, NotTagEnd);
    assert TagAt(s, |x|);
    assert s == (x + t) + y;
    SubTagsShift(x + t, y, 0, " ");
  }

  /** Cleaning twice can differ from cleaning once: a tag broken by a line break survives the
      first pass, and the collapse then joins it into a tag that the second pass removes. */
  lemma CleanNotIdempotent()
    ensures CleanJobDescription("<a\n>") == "<a >"
    ensures CleanJobDescription("<a >") == ""
  {
    BrokenTagSurvives();
    JoinedTagRemoved();
  }

  lemma BrokenTagSurvives()
    ensures CleanJobDescription("<a\n>") == "<a >"
  {
    var s := "<a\n>";
    assert s[0] == '<' && s[1] == 'a' && s[2] == '\n' && s[3] == '>';
    SpanWhileAt(s, 1, 2, NotTagEnd);
    SubTagsPrefix(s, 1, 4, " ");
    assert SubTags(s, 0, " ") == s;
    CollapseBrokenTag();
    StripNoEdge("<a >");
  }

  lemma CollapseBrokenTag()
    ensures Collapse("<a\n>") == "<a >"
  {
    BrokenTagPieces();
    CollapseSeparates("<a", "\n", ">");
  }

  lemma BrokenTagPieces()
    ensures "<a" + "\n" + ">" == "<a\n>" && "<a" + " " + ">" == "<a >"
    ensures "<a"[1] == 'a' && ">"[0] == '>' && All("\n", 0, 1, IsSpace)
    ensures Collapse("<a") == "<a" && Collapse(">") == ">"
  {
    var x, w, y := "<a", "\n", ">";
    assert x[0] == '<' && x[1] == 'a' && w[0] == '\n' && y[0] == '>';
    CollapseSingleSpaced(x);
    CollapseSingleSpaced(y);
    var u, v := x + w + y, x + " " + y;
    assert u[0] == '<' && u[1] == 'a' && u[2] == '\n' && u[3] == '>';
    assert v[0] == '<' && v[1] == 'a' && v[2] == ' ' && v[3] == '>';
  }

  lemma JoinedTagRemoved()
    ensures CleanJobDescription("<a >") == ""
  {
    var c := "<a >";
    assert c[0] == '<' && c[1] == 'a' && c[2] == ' ' && c[3] == '>';
    SpanWhileAt(c, 1, 3, NotTagEnd);
    assert SubTags(c, 0, " ") == " ";
    SpanWhileAt(" ", 0, 1, IsSpace);
    assert Collapse(" ") == " ";
    StripIs(" ", 1, 1);
  }

  // ---------------------------------------------------------------------------
  // The two label tables and the actor input
  // ---------------------------------------------------------------------------

  /** Lines 48-53. */
  const JobTypeMapping: map<string, string> :=
    map["Full-time" := "fulltime", "Part-time" := "parttime", "Internship" := "internship", "Contract" := "contract"]

  /** Lines 55-60. */
  const DatePostedMapping: map<string, string> :=
    map["Any time" := "all", "Past 24 hours" := "24h", "Past week" := "48h", "Past month" := "72h"]

  /** `mapping.get(key, "")`. */
  function Lookup(mapping: map<string, string>, key: string): string {
    if key in mapping then mapping[key] else ""
  }

  /** The job-type table, pair by pair, and "" for every other label. */
  lemma JobTypeCodes(key: string)
    ensures Lookup(JobTypeMapping, "Full-time") == "fulltime"
    ensures Lookup(JobTypeMapping, "Part-time") == "parttime"
    ensures Lookup(JobTypeMapping, "Internship") == "internship"
    ensures Lookup(JobTypeMapping, "Contract") == "contract"
    ensures key !in {"Full-time", "Part-time", "Internship", "Contract"} ==> Lookup(JobTypeMapping, key) == ""
  {
  }

  /** The date table, pair by pair, and "" for every other label. */
  lemma DatePostedCodes(key: string)
    ensures Lookup(DatePostedMapping, "Any time") == "all"
    ensures Lookup(DatePostedMapping, "Past 24 hours") == "24h"
    ensures Lookup(DatePostedMapping, "Past week") == "48h"
    ensures Lookup(DatePostedMapping, "Past month") == "72h"
    ensures key !in {"Any time", "Past 24 hours", "Past week", "Past month"} ==> Lookup(DatePostedMapping, key) == ""
  {
  }

  /** No known key maps to "", and no two known labels share a code, so the code names
      the key it came from, and "" means the key was not in the table. */
  lemma LookupDecides(key: string, other: string)
    ensures Lookup(JobTypeMapping, key) != "" <==> key in JobTypeMapping
    ensures Lookup(DatePostedMapping, key) != "" <==> key in DatePostedMapping
    ensures (key in JobTypeMapping && other in JobTypeMapping
             && Lookup(JobTypeMapping, key) == Lookup(JobTypeMapping, other)) ==> key == other
    ensures (key in DatePostedMapping && other in DatePostedMapping
             && Lookup(DatePostedMapping, key) == Lookup(DatePostedMapping, other)) ==> key == other
  {
  }

  /** The arguments of `scrape_indeed` as the interface passes them. */
  datatype SearchParams = SearchParams(
    jobTitle: string,
    location: string,
    numJobs: int,
    remoteOption: string,
    datePosted: string,
    jobType: string)

  datatype ProxyConfig = ProxyConfig(useApifyProxy: bool)

  /** The actor's input record, lines 67-80; its keys are the field names. */
  datatype RunInput = RunInput(
    city: string,
    country: string,
    title: string,
    engines: string,
    jobtype: string,
    last: string,
    remote: string,
    max: int,
    proxy: ProxyConfig)

  function BuildRunInput(q: SearchParams): (r: RunInput)
    ensures r.country == "USA" && r.engines == "1" && r.proxy == ProxyConfig(true)
    ensures r.city == q.location && r.title == q.jobTitle && r.remote == q.remoteOption && r.max == q.numJobs
    ensures r.jobtype == Lookup(JobTypeMapping, q.jobType) && r.last == Lookup(DatePostedMapping, q.datePosted)
  {
    RunInput(
      q.location, "USA", q.jobTitle, "1",
      Lookup(JobTypeMapping, q.jobType), Lookup(DatePostedMapping, q.datePosted),
      q.remoteOption, q.numJobs, ProxyConfig(true))
  }

  /** Nothing else is taken from the caller: searches that agree on title, location, count and
      remote option, and whose labels give the same codes, send the same input; searches that
      send the same input agree on those four. */
  lemma RunInputDependsOnlyOn(q: SearchParams, q': SearchParams)
    ensures BuildRunInput(q) == BuildRunInput(q') <==>
      && q.jobTitle == q'.jobTitle && q.location == q'.location
      && q.numJobs == q'.numJobs && q.remoteOption == q'.remoteOption
      && Lookup(JobTypeMapping, q.jobType) == Lookup(JobTypeMapping, q'.jobType)
      && Lookup(DatePostedMapping, q.datePosted) == Lookup(DatePostedMapping, q'.datePosted)
  {
  }

  // ---------------------------------------------------------------------------
  // Projection of the actor's items
  // ---------------------------------------------------------------------------

  /** One dataset item, reduced to the five keys the projection selects. */
  datatype ActorItem = ActorItem(title: string, company: string, location: string, description: string, jobUrl: string)

  /** Selecting columns of `pd.DataFrame([])`, which has none, raises KeyError. */
  datatype ScrapeFailure = MissingColumns

  /** Lines 90-111: the items become a frame, five columns are selected and renamed,
      Platform is set on every row, then every description is replaced by its cleaned form. */
  method ProjectItems(items: seq<ActorItem>) returns (r: Result<seq<Posting>, ScrapeFailure>)
    ensures r.Err? <==> items == []
    ensures r.Ok? ==> |r.value| == |items|
    ensures r.Ok? ==> forall k :: 0 <= k < |items| ==>
      var row, item := r.value[k], items[k];
      && row.platform == "Indeed"
      && row.jobTitle == item.title && row.company == item.company && row.location == item.location
      && row.jobUrl == item.jobUrl
      && row.jobDescription == CleanJobDescription(item.description)
  {
    if items == [] {
      return Err(MissingColumns);
    }
    var rows: seq<Posting> := [];
    var i := 0;
    while i < |items|
      invariant 0 <= i <= |items| && |rows| == i
      invariant forall k :: 0 <= k < i ==>
        rows[k] == Posting("Indeed", items[k].title, items[k].company, items[k].location, items[k].description, items[k].jobUrl)
    {
      var item := items[i];
      rows := rows + [Posting("Indeed", item.title, item.company, item.location, item.description, item.jobUrl)];
      i := i + 1;
    }
    i := 0;
    while i < |rows|
      invariant 0 <= i <= |rows| == |items|
      invariant forall k :: 0 <= k < |rows| ==>
        rows[k].platform == "Indeed" && rows[k].jobTitle == items[k].title && rows[k].company == items[k].company
        && rows[k].location == items[k].location && rows[k].jobUrl == items[k].jobUrl
      invariant forall k :: 0 <= k < i ==> rows[k].jobDescription == CleanJobDescription(items[k].description)
      invariant forall k :: i <= k < |rows| ==> rows[k].jobDescription == items[k].description
    {
      rows := rows[i := rows[i].(jobDescription := CleanJobDescription(rows[i].jobDescription))];
      i := i + 1;
    }
    return Ok(rows);
  }

  /** Every projected description is cleaned: no whitespace at its ends, single plain spaces,
      and the item's text outside tags. */
  lemma ProjectedDescriptionsClean(items: seq<ActorItem>, rows: seq<Posting>)
    requires |rows| == |items|
    requires forall k :: 0 <= k < |items| ==> rows[k].jobDescription == CleanJobDescription(items[k].description)
    ensures forall k :: 0 <= k < |rows| ==>
      && NoEdgeSpace(rows[k].jobDescription) && SingleSpaced(rows[k].jobDescription)
      && NonSpace(rows[k].jobDescription) == NonSpace(SubTags(items[k].description, 0, ""))
  {
    forall k | 0 <= k < |rows|
      ensures NonSpace(rows[k].jobDescription) == NonSpace(SubTags(items[k].description, 0, ""))
    {
      CleanKeepsText(items[k].description);
    }
  }
}
