# Job-matching core: reply parser and Indeed cleaner, in Dafny

This project models two parts of a job-search assistant, as pure Dafny definitions with proved
properties:

- **The résumé-to-posting matcher** (`evaluate_job_matches` in `utilities/gpt_parser.py`). For
  each posting it:
  - renders a six-line job context;
  - retrieves résumé chunks with it;
  - asks a language model for three numbered items;
  - parses the reply, stripped, into a match percentage, a skill-gap list and tailoring
    suggestions.

  The batch either returns one row per posting, in order, or fails with the first error raised.
- **The Indeed scraper's pure parts** (`utilities/indeed_scraper.py`):
  - the description cleaner: tags become spaces, whitespace runs become one space, the ends are
    stripped;
  - the two label tables;
  - the actor's input record;
  - the projection of the actor's items onto the six-column posting schema.

Modules:

- `PyText` (`pytext.dfy`) gives the Python 3 semantics the code relies on:
  - `str.isspace()` and `\s`: the full Unicode whitespace set;
  - `str.strip()`;
  - what the regular expressions' `\d`, `[\d.]` and `.` match.
- `Postings` (`postings.dfy`) holds the six-field posting record and `Option`/`Result`.
- `GptParser` (`gpt_parser.dfy`) covers:
  - context, prompt and the regex searches: `re.search` is proved to find the leftmost match;
  - `float()` on the captured run of digits and dots, as an exact rational;
  - the three field extractors and the loop.

  The loop is a method, `EvaluateJobMatches`, proved equal to the function `Batch`, whose
  meaning is proved in `BatchSpec`; `BatchOutcome` states it end to end in terms of the
  collaborators' answers and the reply parser.
- `GptExamples` (`gpt_examples.dfy`) holds worked replies.
- `IndeedScraper` (`indeed_scraper.dfy`) covers:
  - `re.sub(r"<.*?>", " ", …)` with its lazy, line-bound match;
  - `re.sub(r"\s+", " ", …)`;
  - the cleaner and the two tables;
  - the actor input;
  - the projection, as a loop over records.

Collaborators without visible code are parameters of the `Collaborators` datatype:
- the text splitter;
- the FAISS similarity search, whose `None` result stands for a raised exception (the query is
  embedded through the embeddings API on every call);
- the question-answering chain, whose `None` result stands for a raised exception.

Three behaviours of the code are more abrupt than a reader might expect; the model keeps them:

- **A failed search or model call aborts the whole batch.** No per-posting recovery degrades
  one row to the sentinel values and goes on. The loop in `evaluate_job_matches` has no `try`,
  so the exception propagates and the rows already assessed are lost. `EarlierRowsDiscarded`
  shows this for three postings whose second iteration fails.
- **A non-numeric percentage capture raises.** It does not default to 0.0. The code calls
  `float(match.group(1))` whenever the pattern matched, so a capture such as `"."` raises
  `ValueError`. `RejectedNumber` shows this. Only a reply with no match falls back to the default 0.0.
- **`evaluate_job_matches` does not reject an empty résumé.** The function itself has no check;
  its caller does (line 125 of `main.py` skips the evaluation and shows a warning when no text
  was extracted). In the model the split result is passed on as it is. What the code does with
  an empty chunk list when it builds the index (line 34) is not modelled (see "## Left out").

## Model

| member | source | states |
|---|---|---|
| GptParser.JobContextIs | utilities/gpt_parser.py:49-56 | The context is exactly "Platform: "+platform+"\n"+"Job Title: "+…+"Job URL: "+url+"\n": the six fields in fixed order, each on its own labelled line |
| GptParser.JobContext | utilities/gpt_parser.py:49-56 | The context is non-empty and ends with a line break |
| GptParser.SplitRenderedLines | utilities/gpt_parser.py:49-56 | For labels and values without line breaks, splitting rendered lines on "\n" gives one piece per line, label followed by value, then a final empty piece |
| GptParser.ContextRoundTrip | utilities/gpt_parser.py:49-56 | For fields without line breaks, the posting can be read back from its context: no field is lost and no two are mixed up |
| GptParser.Prompt | utilities/gpt_parser.py:66-73 | The prompt is the fixed instruction text followed by the context, so it ends with that posting's context |
| GptParser.PromptDistinguishesPostings | utilities/gpt_parser.py:66-73 | Two postings with one-line fields get equal prompts only if the postings are equal |
| GptParser.PercentagePatternAt | utilities/gpt_parser.py:86 | `1\.\s*([\d.]+)` matches at i iff "1." is there, then a whitespace run, then a non-empty run of digits and dots |
| GptParser.FindFrom | utilities/gpt_parser.py:86-88 | `re.search` returns the leftmost position at which the item's pattern matches, or none if it matches nowhere |
| GptParser.NumberCapture | utilities/gpt_parser.py:86 | Group 1 is the whole maximal, non-empty run of digits and dots after the whitespace that follows "1." |
| GptParser.LineCapture | utilities/gpt_parser.py:87-88 | Group 1 of `N\.\s*(.*)` starts where the whitespace ends (it may cross line breaks) and runs to the next line break or the end of the text |
| GptParser.ParseDecimalSpec | utilities/gpt_parser.py:90 | `float()` accepts a run of digits and dots iff it has at most one dot and at least one digit; its value is the number written by all the digits over ten to the number of digits after the point |
| GptParser.PercentageFieldSpec | utilities/gpt_parser.py:86-90 | No item-1 match gives 0.0; otherwise the leftmost capture's value, or the error NotANumber(capture) when float() rejects it |
| GptParser.TextField | utilities/gpt_parser.py:87-92 | An absent item yields its sentinel "Could not extract skills" or "Could not extract suggestions"; otherwise the leftmost capture, stripped |
| GptParser.TextFieldIsOneLine | utilities/gpt_parser.py:87-92 | A found skills or suggestions field is a single line with no surrounding whitespace |
| GptParser.ParseResponseSpec | utilities/gpt_parser.py:86-92 | The percentage is 0.0 without an item-1 match and otherwise the exact value of the leftmost capture; skill gaps and suggestions are each the sentinel when their own item is absent and otherwise the stripped rest of the line at their own leftmost marker, one line without surrounding whitespace; parsing fails iff float() rejects the leftmost item-1 capture, and then with that capture |
| GptParser.BatchSpec | utilities/gpt_parser.py:42-105 | The batch succeeds iff every iteration does, and then has one row per posting, in order, holding the posting and its assessment; otherwise it fails with the error of the first iteration that raised |
| GptParser.FirstFailureIs | utilities/gpt_parser.py:47-105 | When posting k is the first whose iteration raises, the batch fails with exactly that error |
| GptParser.EarlierRowsDiscarded | utilities/gpt_parser.py:42-110 | With three postings where the second iteration raises, the batch yields only the error; the first row is not returned |
| GptParser.AssessSpec | utilities/gpt_parser.py:49-92 | One posting's iteration succeeds iff the similarity search and the model call both return and float() accepts the leftmost item-1 capture of the stripped reply; once both calls return, the outcome is the parse of the stripped reply (so a rejected capture fails with NotANumber of it); a failed search gives RetrievalFailed, a failed call JudgmentFailed |
| GptParser.BatchOutcome | utilities/gpt_parser.py:42-105 | End to end: the batch has a row for every posting iff, for every posting, both calls return and float() accepts the percentage of the stripped reply; row k then holds posting k and the parse of its stripped reply; otherwise the batch fails with the error of the first posting that is not answered |
| GptParser.EvaluateJobMatches | utilities/gpt_parser.py:14-111 | The loop splits the résumé once and returns exactly `Batch` of the postings under that iteration |
| GptExamples.WellFormedReply | utilities/gpt_parser.py:86-92 | "1. 87\n2. Docker, Kubernetes\n3. Emphasize cloud experience" parses to (87.0, "Docker, Kubernetes", "Emphasize cloud experience") |
| GptExamples.MissingItems | utilities/gpt_parser.py:87-92 | A reply with only item 1 gets both sentinel strings |
| GptExamples.SkillsMissing | utilities/gpt_parser.py:87-92 | "1. 87\n3. SQL" parses to (87.0, "Could not extract skills", "SQL"): a missing item 2 gives only its own sentinel |
| GptExamples.RejectedNumber | utilities/gpt_parser.py:86-90 | "1. ." fails with NotANumber(".") instead of defaulting to 0.0 |
| GptExamples.SkillsFromInsideNumber | utilities/gpt_parser.py:87-91 | In "1. 92.5\n2. Go" the leftmost "2." is inside 92.5, so the skill gaps are "5" |
| GptExamples.Integer87 | utilities/gpt_parser.py:90 | float("87") is 87.0 |
| GptExamples.Decimal925 | utilities/gpt_parser.py:90 | float("92.5") is 92.5 |
| GptExamples.LoneDot | utilities/gpt_parser.py:90 | float(".") raises |
| GptExamples.TwoDots | utilities/gpt_parser.py:90 | float("1.2.3") raises |
| PyText.Strip | utilities/gpt_parser.py:83 | `str.strip()` returns a slice of the input with no whitespace at either end, and only whitespace removed around it |
| PyText.StripIs | utilities/gpt_parser.py:83 | That slice is unique: any slice with whitespace-only surroundings and non-whitespace ends is the result |
| PyText.StripKeepsNonSpace | utilities/indeed_scraper.py:18 | Stripping keeps every non-whitespace character, in order |
| PyText.StripSingleSpaced | utilities/indeed_scraper.py:18 | Stripping single-spaced text keeps it single-spaced |
| PyText.StripJoin | utilities/indeed_scraper.py:18 | Stripping two words joined by one space strips only the outer ends of the pair |
| IndeedScraper.TagEnd | utilities/indeed_scraper.py:16 | The lazy `.*?` after '<' stops at the first '>' or line break |
| IndeedScraper.TagAtIff | utilities/indeed_scraper.py:16 | `<.*?>` matches at p iff a '<' there is followed, without a line break, by a '>', and the match ends at the first '>' |
| IndeedScraper.SubTagsWithoutTags | utilities/indeed_scraper.py:16 | Text without '<' comes out of the tag substitution unchanged |
| IndeedScraper.SubTagsNonSpace | utilities/indeed_scraper.py:16 | Replacing tags by a space or by nothing leaves the same non-whitespace characters |
| IndeedScraper.SubTagsShift | utilities/indeed_scraper.py:16 | The substitution on the tail of a text does not depend on the text in front of it |
| IndeedScraper.SubTagsAroundTag | utilities/indeed_scraper.py:16 | In text without '<' followed by a complete tag, that tag alone is replaced by the space |
| IndeedScraper.Collapse | utilities/indeed_scraper.py:18 | `re.sub(r"\s+", " ", …)` yields single-spaced text that starts with whitespace iff the input does, and ends with whitespace iff the input does |
| IndeedScraper.CollapseConcat | utilities/indeed_scraper.py:18 | A boundary right after a non-whitespace character splits no whitespace run, so both sides collapse separately |
| IndeedScraper.CollapseRun | utilities/indeed_scraper.py:18 | A whitespace run of any length and kind, up to a word or the end, becomes one plain space |
| IndeedScraper.CollapseSeparates | utilities/indeed_scraper.py:18 | Between two words, whatever whitespace run separates them becomes exactly one space |
| IndeedScraper.CollapseKeepsNonSpace | utilities/indeed_scraper.py:18 | Collapsing keeps every non-whitespace character, in order |
| IndeedScraper.CollapseSingleSpaced | utilities/indeed_scraper.py:18 | Collapsing already single-spaced text changes nothing |
| IndeedScraper.CleanJobDescription | utilities/indeed_scraper.py:14-19 | The cleaned description has no whitespace at either end, and every whitespace character in it is a single plain space |
| IndeedScraper.CleanKeepsText | utilities/indeed_scraper.py:14-19 | The cleaned text's non-whitespace characters are exactly the input's outside the removed tags, in order |
| IndeedScraper.CleanAlreadyClean | utilities/indeed_scraper.py:14-19 | Text with no '<', no edge whitespace and only single plain spaces is returned unchanged |
| IndeedScraper.CleanSeparatesAtTag | utilities/indeed_scraper.py:14-19 | A tag between two words leaves exactly one space between their cleaned forms |
| IndeedScraper.CleanSeparatesAtSpace | utilities/indeed_scraper.py:14-19 | A whitespace run between two words leaves exactly one space between their cleaned forms |
| IndeedScraper.CleanTagBetweenWords | utilities/indeed_scraper.py:14-19 | "a<b>c" becomes "a c" |
| IndeedScraper.CleanParagraph | utilities/indeed_scraper.py:14-19 | "<p>Hello</p>" becomes "Hello" |
| IndeedScraper.CleanNotIdempotent | utilities/indeed_scraper.py:14-19 | Cleaning is not idempotent: "<a\n>" becomes "<a >", which a second pass turns into "" |
| IndeedScraper.JobTypeCodes | utilities/indeed_scraper.py:48-53 | `job_type_mapping.get(…, "")` (line 72) maps Full-time, Part-time, Internship and Contract to fulltime, parttime, internship and contract, and any other label to "" |
| IndeedScraper.DatePostedCodes | utilities/indeed_scraper.py:55-60 | `date_posted_mapping.get(…, "")` (line 73) maps Any time, Past 24 hours, Past week and Past month to all, 24h, 48h and 72h, and any other label to "" |
| IndeedScraper.LookupDecides | utilities/indeed_scraper.py:48-60 | A lookup gives "" iff the label is unknown, and distinct known labels give distinct codes |
| IndeedScraper.BuildRunInput | utilities/indeed_scraper.py:67-80 | The input record: city = location, title = job title, remote = remote option, max = job count, the two looked-up codes, country "USA", engines "1", Apify proxy on |
| IndeedScraper.RunInputDependsOnlyOn | utilities/indeed_scraper.py:67-80 | Two searches send the same record iff they agree on title, location, count and remote option, and their labels give the same codes |
| IndeedScraper.ProjectItems | utilities/indeed_scraper.py:90-111 | No items raise KeyError; otherwise there is one row per item, in order, with the five fields renamed, Platform "Indeed" and the description cleaned |
| IndeedScraper.ProjectedDescriptionsClean | utilities/indeed_scraper.py:111 | Every projected description has no edge whitespace, is single-spaced and keeps the item's text outside tags |

## Left out

- The text splitter (`CharacterTextSplitter`, lines 22-28 of `utilities/gpt_parser.py`) is left out. Its chunk sizes and overlap are not modelled; it is the `splitText` parameter.
- Embedding and FAISS index construction (lines 33-34) are left out. So are their failures, for example on an empty chunk list. These are network and library calls.
- `similarity_search` and the question-answering chain (lines 39-40, 61, 75-78) are opaque parameters. For each, only "the call raised" (`None`, giving `RetrievalFailed` or `JudgmentFailed`) versus "it returned a result" is modelled; which chunks are retrieved and what the model answers are not.
- Reading `OPENAI_API_KEY` (line 11) is left out: it is environment I/O.
- Reading `config.ini` and creating the Apify client and the actor run (lines 36-43 and 85-88 of `utilities/indeed_scraper.py`) are left out: they are I/O. The actor's dataset is the `items` parameter.
- `ParseDecimalSpec`: the percentage is the exact decimal value of the capture. Python's rounding to the nearest binary float is not modelled.
- `\d` is modelled as the ASCII digits only; Python also accepts other Unicode decimal digits.
- `ProjectItems`: each item is modelled with all five selected keys present and holding strings. Three cases are not modelled:
  - pandas fills NaN when only some items lack a key;
  - the cleaner raises on a value that is not a string;
  - a non-empty dataset in which no item carries one of the five keys: that column is missing
    from the frame, and the selection on line 96 raises KeyError.

  In the model, only the empty dataset (a frame with no columns) raises KeyError.
- `ProjectItems`: the frame's column order is not modelled. Platform is appended as the last column. A posting here is a record, not an ordered row.
- Per-posting recovery from a failed search or model call, and retries, are not modelled: the code has neither (see above).
- The empty-résumé check of the caller (line 125 of `main.py`) is not modelled; `evaluate_job_matches` itself has none.
- CleanSeparatesAtTag: stated for a left part without '<' and a right part that does not start with '<'. A '<' on the left could open a match that runs into the gap, and one on the right could start another tag.
- CleanSeparatesAtSpace: stated under the same conditions on the two parts as CleanSeparatesAtTag, for the same reason.
- `utilities/linkedin_scraper.py`, `utilities/chromedriver_launch.py` and `main.py` are not part of this model. They are browser automation, PDF reading and user-interface code.
