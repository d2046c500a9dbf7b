# LLM Lab, modelled in Dafny

LLM Lab is a small web application for comparing the answers a language model gives to
one prompt across a grid of sampling parameters. A Next.js dashboard collects a prompt,
a model name and two comma-separated lists: temperatures and top_p values. A FastAPI back
end sends one request per (temperature, top_p) pair to the OpenAI or Anthropic SDK. It
scores every answer with six text metrics plus a weighted overall score and stores the
experiment and its responses in SQLite. Through its REST endpoints it lists, fetches,
deletes and exports stored experiments. The dashboard then charts the scores, picks the
best response and shows a card per metric.

The project models both halves:

- `wrappers.dfy`: `Option` and `Result`.
- `dicts.dfy`: insertion-ordered dictionaries, used for the JSON metrics column and the
  export rows.
- `text.dfy`: the string operations the code relies on. From Python it takes `str.strip`,
  `str.split`, `str.lower`, `re.split` on a character class and `re.findall(r'\b\w+\b')`.
  From JavaScript it takes `String.prototype.trim`, `split(',')`, `split(/\s+/)` and the
  decimal subset of `parseFloat`.
- `metrics.dfy`: the `ResponseMetrics` scorer (`metrics.py`) as specification functions
  over `real`. It also holds three methods that run the scorer's loops.
- `llm_service.dfy`: `LLMService`, meaning provider routing, error wrapping and the
  parameter grid. Each SDK reply is an input.
- `schemas.dfy`, `models.dfy`: pydantic request validation, the `ResponseMetrics` record,
  and the two ORM tables with their defaults and the delete-orphan cascade.
- `sorting.dfy`: the `ORDER BY` clauses, as a stable insertion sort.
- `store.dfy`: the five endpoints of `main.py`, as the class `Api.Store`. Its fields are
  the two tables, kept in rowid order.
- `experiment_form.dfy`: the form's `handleSubmit`.
- `results_display.dfy`: the dashboard's derived data, meaning chart rows, radar points,
  best response, metric cards and word count.

Scores are `real`. `Metrics.OverallScore` is proved to stay in [0, 1], together with
each of the six scores. The raw sums of completeness and structure are proved to lie in
[0, 1] already, so their final clamp never changes them.

`re.split(r'[.!?]+')` is modelled as a split at every delimiter character. The empty
pieces this creates between consecutive delimiters are blank, and the following
non-blank filter drops them. The sentence list is therefore the one the source builds.

## Model

| member | source | states |
|---|---|---|
| Dicts.Keys | llm-lab/backend/app/metrics.py:19-26 | the keys of an insertion-ordered dict, position by position |
| Dicts.KeysAppend | llm-lab/backend/app/main.py:101 | adding entries to a dict appends their keys after the existing keys |
| Dicts.Get | llm-lab/backend/app/metrics.py:307 | a lookup returns None exactly when the key is absent; otherwise it returns a value stored under that key |
| Dicts.GetEntry | llm-lab/backend/app/metrics.py:307 | when keys are distinct, looking up the i-th key returns the i-th value |
| Models.NewExperiment | llm-lab/backend/app/models.py:7-13 | an Experiment row exists iff a prompt is given; id and prompt are as given, and created_at defaults to the current time |
| Models.NewResponse | llm-lab/backend/app/models.py:19-36 | a Response row exists iff experiment_id, temperature, top_p and content are present (the NOT NULL columns); model defaults to gpt-3.5-turbo and metrics may be null |
| Models.ResponsesOf | llm-lab/backend/app/models.py:16 | an experiment's responses are exactly the rows with its experiment_id |
| Models.Cascade | llm-lab/backend/app/models.py:16 | after the delete-orphan cascade, the remaining rows are exactly those of other experiments |
| Models.CascadePartition | llm-lab/backend/app/models.py:16 | the cascade's remaining rows and the deleted experiment's own rows split the table, as a multiset and by count |
| Models.CascadeOfUnreferenced | llm-lab/backend/app/models.py:16 | deleting an experiment that has no responses leaves the responses table unchanged |
| Schemas.ParseGenerateRequest | llm-lab/backend/app/schemas.py:6-11 | a request is accepted iff the prompt is present and 1..5000 characters long; a missing prompt is reported by name; model and both ranges take their defaults when absent |
| Schemas.DefaultRequest | llm-lab/backend/app/schemas.py:8-11 | a request with only a prompt gets gpt-3.5-turbo, [0.3, 0.7, 1.0] and [0.9, 0.95, 1.0], a grid of 9 pairs |
| Schemas.ParseMetrics | llm-lab/backend/app/schemas.py:24-32 | ResponseMetrics(**d) succeeds iff the six scores are present; each field is the dict's value for its key, and overall_score is optional |
| Schemas.MetricsDictKeys | llm-lab/backend/app/schemas.py:24-32 | a record as a dict has the six keys in declaration order, then overall_score when set, all distinct |
| Schemas.ParseMetricsDict | llm-lab/backend/app/schemas.py:24-32 | round trip: parsing the dict of a record gives the record back |
| Schemas.ParseScoredMetrics | llm-lab/backend/app/main.py:100-101 | the metrics stored for any text always parse; each field equals its metric, and the overall score is present |
| Schemas.ScoredIsRecordDict | llm-lab/backend/app/main.py:100-101 | the stored dict equals the dict of the record that holds the six scores and their overall score |
| Schemas.ParseExportRequest | llm-lab/backend/app/schemas.py:71-74 | an export request is accepted iff ids are present and the format is absent, "json" or "csv"; the format defaults to json |
| Schemas.ExportFormatRejected | llm-lab/backend/app/schemas.py:74 | the format pattern is anchored and case-sensitive: "JSON" and "json " are rejected, and an absent format gives json |
| Sorting.Insert | llm-lab/backend/app/main.py:208 | inserting adds exactly the one element, as a multiset |
| Sorting.Sort | llm-lab/backend/app/main.py:205-209 | the sort is a permutation of its input |
| Sorting.InsertSorted | llm-lab/backend/app/main.py:208 | under a total preorder, inserting into a sorted list keeps it sorted |
| Sorting.SortSorted | llm-lab/backend/app/main.py:205-209 | under a total preorder, the result is sorted and a permutation of the input |
| Sorting.SortedSlice | llm-lab/backend/app/main.py:167-169 | any window of a sorted list, such as an offset/limit page, is sorted |
| Text.Lower | llm-lab/backend/app/metrics.py:58 | lowercasing keeps the length |
| Text.ContainsAt | llm-lab/backend/app/metrics.py:59 | the substring test `word in text_lower` holds iff the phrase occurs at some position |
| Text.LStrip | llm-lab/backend/app/metrics.py:44 | left strip drops a prefix made only of whitespace; the result does not start with whitespace |
| Text.RStrip | llm-lab/backend/app/metrics.py:44 | right strip drops a suffix made only of whitespace; the result does not end with whitespace |
| Text.Strip | llm-lab/backend/app/metrics.py:44 | strip returns a contiguous slice of the text whose ends are not whitespace |
| Text.StripShape | llm-lab/backend/app/metrics.py:44 | what strip drops, at both ends, is whitespace and nothing else: the result is the slice between the first and last non-space characters |
| Text.BlankIffAllSpace | llm-lab/backend/app/metrics.py:40 | `len(text.strip()) == 0` holds iff every character is whitespace |
| Text.NotBlankWhenLastNotSpace | llm-lab/backend/app/metrics.py:40 | a text whose last character is not whitespace is not blank |
| Text.Split | llm-lab/backend/app/metrics.py:182 | str.split(sep) always gives at least one piece |
| Text.JoinSplit | llm-lab/backend/app/metrics.py:182 | joining the pieces of a split with the separator gives back the text |
| Text.SplitCount | llm-lab/frontend/components/ExperimentForm.tsx:23 | splitting at one character gives one piece more than the character's occurrences |
| Text.SplitAbsent | llm-lab/frontend/components/ExperimentForm.tsx:23 | a text without the separator splits into itself alone |
| Text.SplitAtFirst | llm-lab/frontend/components/ExperimentForm.tsx:23 | splitting at a character cuts at its first occurrence and splits the rest in the same way |
| Text.SplitJoin | llm-lab/frontend/components/ExperimentForm.tsx:23 | splitting the join of separator-free pieces gives back the pieces |
| Text.SplitAny | llm-lab/backend/app/metrics.py:43 | splitting at a character class always gives at least one piece |
| Text.SplitAnyShape | llm-lab/backend/app/metrics.py:43 | splitting at a class gives one piece more than the delimiter characters, and no piece contains a delimiter |
| Text.SplitAnyLast | llm-lab/backend/app/metrics.py:43 | when the text does not end in a delimiter, its last piece ends with the text's last character |
| Text.StrippedNonBlank | llm-lab/backend/app/metrics.py:44 | the stripped pieces are kept only when non-empty |
| Text.StrippedNonBlankKeeps | llm-lab/backend/app/metrics.py:44 | one non-blank piece is enough for at least one sentence to be kept |
| Text.Sentences | llm-lab/backend/app/metrics.py:43-44 | `re.split(r'[.!?]+')` then strip and drop blanks: the sentence list; its properties are stated by SplitAnyShape, StrippedNonBlank and SentencesWhenOpenEnd |
| Text.Paragraphs | llm-lab/backend/app/metrics.py:182-183 | `text.split('\n\n')` then strip and drop blanks: the paragraph list, built from Split and StrippedNonBlank, whose lemmas state its properties |
| Text.SentencesWhenOpenEnd | llm-lab/backend/app/metrics.py:135-136 | a text whose last character is neither a sentence mark nor whitespace has at least one sentence |
| Text.RunLength | llm-lab/frontend/components/ResultsDisplay.tsx:235 | the leading run of matching characters: all of them match, and the next character does not |
| Text.Runs | llm-lab/backend/app/metrics.py:63 | `re.findall(r'\b\w+\b')` gives non-empty words |
| Text.RunsCoverFilter | llm-lab/backend/app/metrics.py:63 | the words, concatenated, are exactly the text's word characters, in order |
| Text.RunsCount | llm-lab/backend/app/metrics.py:63 | the words are maximal runs: there is one per position where a word character starts the text or follows a non-word character, so consecutive words are separated by a non-word character |
| Text.Words | llm-lab/backend/app/metrics.py:63 | `re.findall(r'\b\w+\b')`: the maximal runs of word characters; Runs, RunsCoverFilter and RunsCount state that they are non-empty, cover exactly the word characters in order, and are separated by non-word characters |
| Text.TotalLengthOfNonEmpty | llm-lab/backend/app/metrics.py:250 | the total length of non-empty words is at least their number |
| Text.SplitAtRuns | llm-lab/frontend/components/ResultsDisplay.tsx:235 | `split(/\s+/)` always gives at least one piece |
| Text.SplitAtRunsCount | llm-lab/frontend/components/ResultsDisplay.tsx:235 | `split(/\s+/)` gives one piece more than the whitespace runs |
| Text.SplitAtRunsWords | llm-lab/frontend/components/ResultsDisplay.tsx:235 | `split(/\s+/)` gives the number of non-space words, plus one for leading whitespace and one for trailing whitespace; an empty text gives 1 |
| Text.TrimStart | llm-lab/frontend/components/ExperimentForm.tsx:24 | trim removes a leading run of JavaScript whitespace and no more |
| Text.TrimEnd | llm-lab/frontend/components/ExperimentForm.tsx:24 | trim removes a trailing run of JavaScript whitespace and no more |
| Text.Trim | llm-lab/frontend/components/ExperimentForm.tsx:24 | `trim()` as TrimStart then TrimEnd; TrimShape, TrimUnpadded and TrimLeadingSpace state what it keeps and drops |
| Text.TrimShape | llm-lab/frontend/components/ExperimentForm.tsx:24 | trim returns the slice left after dropping JavaScript whitespace, and only whitespace, from both ends; its ends are not whitespace |
| Text.UnsignedDecimalNaN | llm-lab/frontend/components/ExperimentForm.tsx:24 | parseFloat of an unsigned body is NaN iff the body starts with neither a digit nor '.' followed by a digit |
| Text.ParseFloatNaN | llm-lab/frontend/components/ExperimentForm.tsx:24-25 | parseFloat is NaN iff, after an optional sign, the text starts with neither a digit nor '.' followed by a digit |
| Text.ParseFloat | llm-lab/frontend/components/ExperimentForm.tsx:24 | `parseFloat` on the decimal subset: an optional sign, digits and an optional fraction, NaN when no digit starts it; stated by ParseFloatNaN and ParseFloatDecimal |
| Text.TrimUnpadded | llm-lab/frontend/components/ExperimentForm.tsx:24 | trim leaves a text unchanged when neither end is whitespace |
| Text.TrimLeadingSpace | llm-lab/frontend/components/ExperimentForm.tsx:24 | trim ignores one leading whitespace character |
| Text.ParseFloatDecimal | llm-lab/frontend/components/ExperimentForm.tsx:24 | parseFloat reads "digits.digits" as the decimal value digits / 10^(number of fraction digits) |
| Metrics.Clamp01 | llm-lab/backend/app/metrics.py:76 | min(max(x, 0), 1) lies in [0, 1] and leaves values already in [0, 1] unchanged |
| Metrics.CountContained | llm-lab/backend/app/metrics.py:59 | the number of transition phrases found is at most the number of phrases |
| Metrics.TransitionRatio | llm-lab/backend/app/metrics.py:59-60 | the transition ratio, min(count / sentences, 1), lies in [0, 1] |
| Metrics.Trigrams | llm-lab/backend/app/metrics.py:68 | n words give n - 2 trigrams when n >= 2, and none otherwise |
| Metrics.CountOf | llm-lab/backend/app/metrics.py:69 | a Counter count is at most the list's length and at least 1 for a member |
| Metrics.MaxCountFrom | llm-lab/backend/app/metrics.py:70 | the largest count among positions from i on bounds every count there and is attained |
| Metrics.MaxRepetition | llm-lab/backend/app/metrics.py:70 | the largest trigram count bounds every count and lies in 1..n; it is 1 when there are no trigrams |
| Metrics.RepetitionPenaltyBounds | llm-lab/backend/app/metrics.py:64-71 | the repetition penalty lies in [0, 0.5] and is 0 below 10 words |
| Metrics.CoherenceScore | llm-lab/backend/app/metrics.py:29-76 | `coherence_score`: 0 for blank text, 0.5 below two sentences, else 0.6 * transition ratio + 0.4 * (1 - repetition penalty); CoherenceShape states its cases and bounds |
| Metrics.CoherenceShape | llm-lab/backend/app/metrics.py:29-76 | coherence is 0 for blank text, 0.5 for a single sentence, and otherwise 0.6 * ratio + 0.4 * (1 - penalty), within [0.2, 1]; below 10 words it is 0.4 + 0.6 * ratio |
| Metrics.DistinctBounds | llm-lab/backend/app/metrics.py:96-97 | the number of distinct words lies between 1 and the number of words (when there are any) |
| Metrics.Ttr | llm-lab/backend/app/metrics.py:97 | a type-token ratio lies in (0, 1] |
| Metrics.WindowTtrs | llm-lab/backend/app/metrics.py:104-107 | every window's type-token ratio lies in [0, 1] |
| Metrics.WindowCount | llm-lab/backend/app/metrics.py:104 | the windows number len(range(0, n - 50, 25)): none when n <= 50, else (n - 51) / 25 + 1 |
| Metrics.LexicalDiversity | llm-lab/backend/app/metrics.py:79-110 | `lexical_diversity`: the type-token ratio, or the mean of the 50-word window ratios above 100 words; LexicalDiversityShape states its cases and [0, 1] |
| Metrics.LexicalDiversityShape | llm-lab/backend/app/metrics.py:79-110 | lexical diversity lies in [0, 1]; it is 0 for blank text, the plain ratio up to 100 words, and the mean of the window ratios above 100 words |
| Metrics.ComputeLexicalDiversity | llm-lab/backend/app/metrics.py:79-110 | the windowed loop computes the specified diversity, within [0, 1] |
| Metrics.CountBonus | llm-lab/backend/app/metrics.py:138-143 | the sentence-count bonus lies in [0, 0.3] and is at least 0.1 for one sentence or more |
| Metrics.SentenceLengths | llm-lab/backend/app/metrics.py:158 | one word count per sentence |
| Metrics.CompletenessSumShape | llm-lab/backend/app/metrics.py:128-160 | the completeness sum is the ending value plus the count, conclusion and length bonuses, and it never leaves [0, 1] |
| Metrics.CompletenessShape | llm-lab/backend/app/metrics.py:113-162 | completeness is 0 for blank text; otherwise it is the unclamped sum of its bonuses on the stripped text, which already lies in [0, 1] |
| Metrics.CompletenessRawShape | llm-lab/backend/app/metrics.py:127-160 | on a text that does not end in whitespace, the raw completeness is the sum of its four parts and lies in [0, 1] |
| Metrics.CompletenessScore | llm-lab/backend/app/metrics.py:113-162 | `completeness_score`: 0 for blank text, else the clamped sum of ending, count, conclusion and length bonuses on the stripped text; CompletenessShape states that the clamp never acts |
| Metrics.ComputeCompleteness | llm-lab/backend/app/metrics.py:113-162 | the method computes the specified completeness, within [0, 1] |
| Metrics.SpreadBonus | llm-lab/backend/app/metrics.py:203-213 | the sentence-length spread bonus lies in [0, 0.2] |
| Metrics.ListBonus | llm-lab/backend/app/metrics.py:193-197 | the list bonus is 0 or 0.3 |
| Metrics.HeaderBonus | llm-lab/backend/app/metrics.py:216-218 | the header bonus is 0 or 0.2 |
| Metrics.NoDeviationFromEqual | llm-lab/backend/app/metrics.py:207 | lengths that are all equal have zero squared deviation from their common value |
| Metrics.UniformSentencesNoSpread | llm-lab/backend/app/metrics.py:203-213 | sentences of equal word count earn no spread bonus |
| Metrics.SentenceLengthsAt | llm-lab/backend/app/metrics.py:205 | the i-th length is the word count of the i-th sentence |
| Metrics.StructureScore | llm-lab/backend/app/metrics.py:165-220 | `structure_score`: 0 for blank text, else the clamped sum of paragraph, list, spread and header bonuses; StructureShape states that the clamp never acts |
| Metrics.StructureShape | llm-lab/backend/app/metrics.py:165-220 | structure is 0 for blank text; otherwise it is the unclamped sum of its bonuses, which already lies in [0, 1] |
| Metrics.ComputeStructure | llm-lab/backend/app/metrics.py:165-220 | the method computes the specified structure score, within [0, 1] |
| Metrics.Closeness | llm-lab/backend/app/metrics.py:254-255 | 1 - min(|x - target| / target, 1) lies in [0, 1] and is 1 exactly at the target |
| Metrics.ReadabilityScore | llm-lab/backend/app/metrics.py:223-259 | `readability_score`: 0.6 × the closeness of words per sentence to 17.5 plus 0.4 × the closeness of characters per word to 5, clamped to [0, 1]; ReadabilityShape states its bounds and when it is 1 |
| Metrics.ReadabilityShape | llm-lab/backend/app/metrics.py:223-259 | readability lies in [0, 1]; it is 0 without sentences or words, and it is 1 iff there are 17.5 words per sentence and 5 characters per word |
| Metrics.WordsOfBlank | llm-lab/backend/app/metrics.py:241-244 | a text made only of whitespace has no words |
| Metrics.LengthScoreShape | llm-lab/backend/app/metrics.py:277-289 | the length score is 1 for 75..300 words and stays within [0.1, 1] (at least 0.2 above 500); it rises up to 75 words and falls from 300 on |
| Metrics.LengthScoreContinuous | llm-lab/backend/app/metrics.py:277-289 | the piecewise length curve has no jumps: it changes by at most 0.016 per word |
| Metrics.LengthAppropriateness | llm-lab/backend/app/metrics.py:262-289 | `length_appropriateness`: 0 for blank text, else the piecewise length curve of the word count; LengthAppropriatenessShape and LengthScoreShape state its shape |
| Metrics.LengthAppropriatenessShape | llm-lab/backend/app/metrics.py:262-289 | length appropriateness is 0 for blank text and otherwise within [0.1, 1] |
| Metrics.StoredKeysDifferent | llm-lab/backend/app/metrics.py:19-26 | the six metric keys and overall_score are pairwise different |
| Metrics.ScoreInUnit | llm-lab/backend/app/metrics.py:307 | `metrics.get(key, 0)` lies in [0, 1] when every stored score does |
| Metrics.ScoreOfZeros | llm-lab/backend/app/metrics.py:307 | `metrics.get(key, 0)` is 0 when every stored score is 0 |
| Metrics.OverallScore | llm-lab/backend/app/metrics.py:292-308 | `calculate_overall_score`: the weighted sum 0.25, 0.15, 0.25, 0.15, 0.10, 0.10 of the six scores, 0 for a missing one; OverallScoreBounds, OverallScoreOfPerfect and OverallScoreOfZeros state it |
| Metrics.OverallScoreBounds | llm-lab/backend/app/metrics.py:292-308 | the weighted overall score lies in [0, 1] when every score does, and is 0 when no metric key is present |
| Metrics.OverallScoreOfPerfect | llm-lab/backend/app/metrics.py:298-307 | the weights sum to 1: six perfect scores give an overall score of 1 |
| Metrics.OverallScoreOfZeros | llm-lab/backend/app/metrics.py:307 | all-zero scores give an overall score of 0 |
| Metrics.MetricsOfKeys | llm-lab/backend/app/metrics.py:19-26 | calculate_all_metrics yields the six keys in order |
| Metrics.MetricsOfInUnit | llm-lab/backend/app/metrics.py:19-26 | six scores in [0, 1] make a dict whose scores are all in [0, 1] |
| Metrics.WithOverallKeys | llm-lab/backend/app/main.py:101 | adding overall_score gives the six keys and then overall_score, all distinct |
| Metrics.OverallEntryKeys | llm-lab/backend/app/main.py:101 | appending the overall entry to the six scores gives seven distinct keys in order |
| Metrics.WithOverallInUnit | llm-lab/backend/app/main.py:101 | adding the overall score keeps every stored score in [0, 1] |
| Metrics.MetricsInUnit | llm-lab/backend/app/metrics.py:17-26 | each of the six metrics lies in [0, 1] for every text |
| Metrics.ScoredMetrics | llm-lab/backend/app/main.py:100-101 | the dict the generate endpoint stores: the six metrics then overall_score; ScoredMetricsShape states its keys and bounds |
| Metrics.ScoredMetricsShape | llm-lab/backend/app/main.py:100-101 | the stored metrics of a text have the six keys then overall_score, are distinct, and all lie in [0, 1] |
| Metrics.ScoredMetricsOfBlank | llm-lab/backend/app/main.py:100-101 | every stored score of a blank text is 0 |
| LlmService.NewService | llm-lab/backend/app/llm_service.py:18-28 | the OpenAI client exists iff the key is set and non-empty; the Anthropic client attribute is never assigned |
| LlmService.OpenAiResponse | llm-lab/backend/app/llm_service.py:30-52 | without a client the call raises "OpenAI API key not configured"; otherwise it returns the reply's text, or raises "OpenAI API error: " followed by the detail |
| LlmService.AnthropicResponse | llm-lab/backend/app/llm_service.py:54-75 | a missing attribute raises an AttributeError, a missing client raises "not configured", and otherwise the call returns the text or raises "Anthropic API error: " followed by the detail |
| LlmService.Route | llm-lab/backend/app/llm_service.py:86-91 | "gpt" models go to OpenAI iff a client exists; "claude" models go to Anthropic unless the client is known to be absent; everything else yields no content |
| LlmService.GenerateResponse | llm-lab/backend/app/llm_service.py:77-94 | `generate_response`: routes by model prefix to the provider call, else yields no content; GenerateResponseCases states every case |
| LlmService.GenerateResponseCases | llm-lab/backend/app/llm_service.py:77-94 | content is only ever the reply's own text; covers each case of the routing: content, wrapped error, or None |
| LlmService.Row | llm-lab/backend/app/llm_service.py:109-110 | one row of the grid pairs a temperature with every top_p, in order |
| LlmService.Grid | llm-lab/backend/app/llm_service.py:104-111 | the (temperature, top_p) pairs of the nested loops, row-major; GridLength and GridAt state its size and order |
| LlmService.GridLength | llm-lab/backend/app/llm_service.py:108-111 | the grid has |temperatures| * |top_ps| pairs |
| LlmService.GridAt | llm-lab/backend/app/llm_service.py:108-111 | pair i * |top_ps| + j of the grid is (temperature i, top_p j): row-major order |
| LlmService.ResultText | llm-lab/backend/app/llm_service.py:120-124 | an exception becomes "Error: " followed by its message; a result becomes its text; None stays None |
| LlmService.GenerateMultipleResponses | llm-lab/backend/app/llm_service.py:96-126 | one result per grid pair, in grid order, each carrying the text of that pair's outcome |
| LlmService.RunGrid | llm-lab/backend/app/llm_service.py:104-114 | the nested loops produce the grid of pairs and one outcome per pair |
| LlmService.RunRow | llm-lab/backend/app/llm_service.py:109-111 | the inner loop appends one row of pairs and their outcomes |
| LlmService.PairOutcomes | llm-lab/backend/app/llm_service.py:117-124 | the results loop pairs each parameter pair with its outcome's text |
| Api.NextExperimentId | llm-lab/backend/app/main.py:84-86 | a new experiment's rowid exceeds every rowid in use; it is 1 in an empty table |
| Api.NextResponseId | llm-lab/backend/app/main.py:112 | a new response's rowid exceeds every rowid in use; it is 1 in an empty table |
| Api.ScoredMetricsKeysStored | llm-lab/backend/app/main.py:100-101 | the scorer always stores the six keys and overall_score |
| Api.StoredRows | llm-lab/backend/app/main.py:97-113 | one response row per generated result |
| Api.StoredRowsAt | llm-lab/backend/app/main.py:104-111 | row k holds the next rowid + k, the experiment, the pair, the model, the content and that content's metrics |
| Api.StoredRowsStep | llm-lab/backend/app/main.py:98-113 | each iteration of the row loop appends exactly one row |
| Api.StoredRowsKeys | llm-lab/backend/app/main.py:100-101 | every stored row carries the six metric keys and overall_score |
| Api.AddedRows | llm-lab/backend/app/main.py:89-113 | a generate call that gets every answer adds one row per grid pair |
| Api.StoredRowsAdded | llm-lab/backend/app/main.py:89-113 | the rows built from the service's results are the rows the endpoint adds |
| Api.AddedRowsIds | llm-lab/backend/app/main.py:104-112 | the added rows take consecutive rowids and belong to the new experiment |
| Api.AsData | llm-lab/backend/app/main.py:131-139 | converting a row fails iff its metrics are a non-empty dict missing a score key; otherwise every field is copied, and empty metrics become None |
| Api.AllData | llm-lab/backend/app/main.py:130-141 | a list converts iff every row does, position by position |
| Api.StoredKeysParse | llm-lab/backend/app/main.py:137 | a dict with the seven stored keys is non-empty and holds the six score keys |
| Api.StoredRowsConvert | llm-lab/backend/app/main.py:126-142 | rows with stored metrics always convert to response data |
| Api.ByParamsPreorder | llm-lab/backend/app/main.py:208 | ordering by (temperature, top_p) is a total preorder |
| Api.Item | llm-lab/backend/app/main.py:175-180 | a list item copies the experiment's id, prompt and time and counts its responses |
| Api.Items | llm-lab/backend/app/main.py:158-166 | one item per experiment, from the outer join grouped by experiment |
| Api.NewerFirstPreorder | llm-lab/backend/app/main.py:167 | ordering by created_at descending is a total preorder |
| Api.Page | llm-lab/backend/app/main.py:168-169 | OFFSET then LIMIT: a negative offset counts as 0, a negative limit means no limit, and the page is a contiguous window of the input |
| Api.PageSlice | llm-lab/backend/app/main.py:168-169 | the page is the slice of the input starting at the clamped offset |
| Api.DefaultPage | llm-lab/backend/app/main.py:151-152 | without query parameters (skip 0, limit 100) the list page is the first 100 items, or all of them |
| Api.MetricColumns | llm-lab/backend/app/main.py:299 | each metric becomes a column named "metric_" + key, in order |
| Api.MetricColumnNames | llm-lab/backend/app/main.py:299 | the metric column names are "metric_" + key, in order |
| Api.ExportRowOf | llm-lab/backend/app/main.py:291-300 | an export row's columns are the seven fixed ones, then the metric columns of its response |
| Api.MetricColumnKeys | llm-lab/backend/app/main.py:299 | the keys of the metric columns are the prefixed metric keys |
| Api.RowsOf | llm-lab/backend/app/main.py:290-300 | one export row per response of an experiment, in order |
| Api.ExportRows | llm-lab/backend/app/main.py:286-300 | `export_data`: the rows of each found experiment in turn; CollectRows computes it by the loops, and ExportRowKeys states its uniform columns |
| Api.ExperimentsIn | llm-lab/backend/app/main.py:271-274 | `id IN ids` selects exactly the experiments whose id is listed |
| Api.ResponsesIn | llm-lab/backend/app/main.py:280-283 | `experiment_id IN ids` selects exactly the responses of listed experiments |
| Api.Record | llm-lab/backend/app/main.py:311-313 | a CSV record has one cell per header column, and a key missing from the row gives an empty cell |
| Api.CsvOf | llm-lab/backend/app/main.py:304-315 | no rows give empty CSV data; otherwise the header is the first row's keys, and the export fails iff a later row has a key outside them, else one record per row |
| Api.ExportRowKeys | llm-lab/backend/app/main.py:286-300 | when every response has the same metric keys, every export row has the same columns |
| Api.CsvOfUniformRows | llm-lab/backend/app/main.py:308-315 | rows with identical columns always export to CSV, with those columns as the header |
| Api.ExportSucceeds | llm-lab/backend/app/main.py:286-315 | with the stored metric keys on every response, an export in any format succeeds: the CSV rows share one header |
| Api.BuildRows | llm-lab/backend/app/main.py:97-113 | the row-building loop fails iff some result has no content; otherwise it builds the specified rows |
| Api.CollectRows | llm-lab/backend/app/main.py:286-300 | the export loop collects the specified rows, experiment by experiment |
| Api.AppendRows | llm-lab/backend/app/main.py:290-300 | the inner export loop appends one experiment's rows |
| Api.Formatted | llm-lab/backend/app/main.py:302-315 | json returns the rows; any other format returns the CSV and fails exactly when the CSV does |
| Api.Store.constructor | llm-lab/backend/app/database.py:29-35 | the tables start empty |
| Api.Store.Generate | llm-lab/backend/app/main.py:73-146 | succeeds iff every grid pair gets content; on failure (rollback) both tables are unchanged and the error is a 500; on success the experiment and its rows are appended |
| Api.Store.Insert | llm-lab/backend/app/main.py:84-142 | appends the experiment and its rows and returns them as response data in creation order |
| Api.Store.Commit | llm-lab/backend/app/main.py:118 | appends the experiment and rows, keeping rowids increasing and every response's experiment present |
| Api.Store.Get | llm-lab/backend/app/main.py:188-233 | fails with 404 iff no experiment has the id; otherwise returns that experiment with its responses ordered by (temperature, top_p) |
| Api.Store.List | llm-lab/backend/app/main.py:149-185 | skip defaults to 0 and limit to 100; returns the requested page of the newest-first items, at most limit of them; the page is sorted, holds only stored experiments, and without offset or a binding limit holds all of them |
| Api.Store.Delete | llm-lab/backend/app/main.py:236-260 | fails with 404 iff the id is absent, changing nothing; otherwise it removes the experiment and cascades to its responses |
| Api.Store.Export | llm-lab/backend/app/main.py:263-320 | fails with 404 iff no listed experiment exists; otherwise formats the rows of the found experiments, and under the store invariant it then always succeeds |
| Api.FindExperiment | llm-lab/backend/app/main.py:196-202 | the lookup finds the first experiment with the id, or reports none iff there is no such experiment |
| Api.OrderedResponses | llm-lab/backend/app/main.py:204-227 | an experiment's responses, ordered by (temperature, top_p), are a sorted permutation, all convert, and stay in that order |
| Api.ListedItems | llm-lab/backend/app/main.py:158-182 | the listed page is sorted newest first, holds only items of stored experiments, and is complete without offset or a binding limit |
| Api.AppendExperimentIncreasing | llm-lab/backend/app/main.py:84-86 | appending an experiment with the next rowid keeps rowids increasing |
| Api.AppendResponsesIncreasing | llm-lab/backend/app/main.py:112-118 | appending rows numbered from the next rowid keeps rowids increasing |
| Api.RemoveExperiment | llm-lab/backend/app/main.py:251 | deleting keeps exactly the other experiments |
| Api.RemoveIncreasing | llm-lab/backend/app/main.py:251-252 | deleting an experiment keeps rowids increasing |
| Api.CascadeIncreasing | llm-lab/backend/app/models.py:16 | the cascade keeps response rowids increasing |
| Api.DeletedNotListed | llm-lab/backend/app/main.py:248-252 | after a delete the experiment is not found, and no page of the list shows it |
| ExperimentForm.MapEach | llm-lab/frontend/components/ExperimentForm.tsx:24 | `.map(read)` reads every piece, in order |
| ExperimentForm.KeepInRange | llm-lab/frontend/components/ExperimentForm.tsx:25 | every kept value lies in [0, hi], and no more values are kept than were read |
| ExperimentForm.ParseRange | llm-lab/frontend/components/ExperimentForm.tsx:22-25 | split at commas, trim and read each piece, keep the numbers in [0, hi]; ParseRangeBounds, KeepInRangeMembers and KeepInRangeInOrder state the result |
| ExperimentForm.HandleSubmit | llm-lab/frontend/components/ExperimentForm.tsx:18-43 | the user is alerted iff either parsed list is empty; otherwise the prompt, model and both parsed lists are submitted |
| ExperimentForm.ParseRangeBounds | llm-lab/frontend/components/ExperimentForm.tsx:22-25 | every parsed value lies in [0, hi], and there are at most one more values than commas |
| ExperimentForm.KeepInRangeMembers | llm-lab/frontend/components/ExperimentForm.tsx:25 | a value is kept iff it was read as a number and lies in [0, hi] |
| ExperimentForm.KeepInRangeInOrder | llm-lab/frontend/components/ExperimentForm.tsx:25 | the kept values are exactly the in-range numbers of the input, at increasing positions: the filter keeps order, and every in-range piece is kept |
| ExperimentForm.KeepInRangeIdempotent | llm-lab/frontend/components/ExperimentForm.tsx:25 | filtering values already in range keeps them all |
| ExperimentForm.ParseRangeIdempotent | llm-lab/frontend/components/ExperimentForm.tsx:22-25 | filtering a parsed list again changes nothing |
| ExperimentForm.DecimalPiece | llm-lab/frontend/components/ExperimentForm.tsx:24 | parseFloat reads "d.f" as (10d + f) / 10 |
| ExperimentForm.PieceValue | llm-lab/frontend/components/ExperimentForm.tsx:24 | a piece "d.f" trimmed and read gives (10d + f) / 10 |
| ExperimentForm.SpacedPieceValue | llm-lab/frontend/components/ExperimentForm.tsx:24 | a piece " d.f" trimmed and read gives (10d + f) / 10 |
| ExperimentForm.RangeOfPieces | llm-lab/frontend/components/ExperimentForm.tsx:22-25 | pieces that all read as in-range numbers are kept as they are |
| ExperimentForm.DefaultTemperaturePieces | llm-lab/frontend/components/ExperimentForm.tsx:23 | the initial temperature text splits into "0.3", " 0.7" and " 1.0" |
| ExperimentForm.DefaultTopPPieces | llm-lab/frontend/components/ExperimentForm.tsx:23 | the initial top_p text splits into "0.9" and " 1.0" |
| ExperimentForm.DefaultPieceValues | llm-lab/frontend/components/ExperimentForm.tsx:24 | the initial pieces read as 0.3, 0.7, 1.0 and 0.9 |
| ExperimentForm.DefaultTemperatureRange | llm-lab/frontend/components/ExperimentForm.tsx:14 | the initial temperature text parses to [0.3, 0.7, 1.0] |
| ExperimentForm.DefaultTopPRange | llm-lab/frontend/components/ExperimentForm.tsx:15 | the initial top_p text parses to [0.9, 1.0] |
| ExperimentForm.DefaultRanges | llm-lab/frontend/components/ExperimentForm.tsx:14-15 | both initial inputs parse to their listed values |
| ExperimentForm.MixedTemperaturePieces | llm-lab/frontend/components/ExperimentForm.tsx:23 | "abc, 3.5, 0.5" splits into "abc", " 3.5" and " 0.5" |
| ExperimentForm.LetterPieceNaN | llm-lab/frontend/components/ExperimentForm.tsx:24 | a piece starting with a letter reads as NaN |
| ExperimentForm.MixedPieceValues | llm-lab/frontend/components/ExperimentForm.tsx:24 | " 3.5" and " 0.5" read as 3.5 and 0.5 |
| ExperimentForm.MixedTemperatureReads | llm-lab/frontend/components/ExperimentForm.tsx:24 | the mixed pieces read as NaN, 3.5 and 0.5 |
| ExperimentForm.KeepThree | llm-lab/frontend/components/ExperimentForm.tsx:25 | of three values, the numbers in [0, hi] are kept, in order |
| ExperimentForm.MixedTemperatureRange | llm-lab/frontend/components/ExperimentForm.tsx:22-25 | the temperature input "abc, 3.5, 0.5" parses to [0.5] |
| ExperimentForm.DefaultSubmission | llm-lab/frontend/components/ExperimentForm.tsx:13-15 | submitting the initial inputs sends a 3 x 2 grid, unlike the back end's 3-value default top_p list |
| ExperimentForm.EmptyPromptReachesBackend | llm-lab/frontend/components/ExperimentForm.tsx:18-43 | handleSubmit submits an empty prompt when both lists are valid, and the back end's validation then rejects it |
| ResultsDisplay.StoredRecordInUnit | llm-lab/frontend/components/ResultsDisplay.tsx:119 | every stored metrics record parses and has all scores and the overall score in [0, 1], the range of the chart axes |
| ResultsDisplay.ChartData | llm-lab/frontend/components/ResultsDisplay.tsx:29-39 | one chart row per response, named "T:t P:p"; a missing metric or missing record gives 0 |
| ResultsDisplay.ChartNameSplits | llm-lab/frontend/components/ResultsDisplay.tsx:30 | a chart name splits back into its temperature and top_p parts |
| ResultsDisplay.ChartInUnit | llm-lab/frontend/components/ResultsDisplay.tsx:33-38 | when the records' scores are in [0, 1], every chart value is |
| ResultsDisplay.RadarData | llm-lab/frontend/components/ResultsDisplay.tsx:42-54 | no points without metrics; otherwise six points labelled Coherence .. Length |
| ResultsDisplay.RadarFollowsStoredOrder | llm-lab/frontend/components/ResultsDisplay.tsx:42-54 | the radar points carry the six scores in the stored key order |
| ResultsDisplay.ReduceBest | llm-lab/frontend/components/ResultsDisplay.tsx:70-74 | the reduce's accumulator stays a valid index no earlier than its start |
| ResultsDisplay.BestResponse | llm-lab/frontend/components/ResultsDisplay.tsx:70-74 | a best response exists iff there are responses, and it is one of them |
| ResultsDisplay.InitialSelection | llm-lab/frontend/components/ResultsDisplay.tsx:26 | a response is selected initially iff there are responses |
| ResultsDisplay.ReduceBestFirstMaximum | llm-lab/frontend/components/ResultsDisplay.tsx:70-74 | the reduce step keeps the first maximum of the scores seen so far |
| ResultsDisplay.BestIsFirstMaximum | llm-lab/frontend/components/ResultsDisplay.tsx:70-74 | the best response has the highest score (a missing score counts as 0), and every earlier one scores strictly lower: ties go to the first |
| ResultsDisplay.BestOfEqualScores | llm-lab/frontend/components/ResultsDisplay.tsx:70-74 | when no score beats the first, the best response is the one selected initially |
| ResultsDisplay.GradeOf | llm-lab/frontend/components/ResultsDisplay.tsx:192-195 | the card band: excellent from 0.8, good from 0.6, average from 0.4, else poor; GradeMonotone states that the bands rise with the value |
| ResultsDisplay.GradeMonotone | llm-lab/frontend/components/ResultsDisplay.tsx:192-195 | a higher value never gets a lower band |
| ResultsDisplay.ReplaceChar | llm-lab/frontend/components/ResultsDisplay.tsx:201 | `replace(/_/g, ' ')` replaces every occurrence, character by character |
| ResultsDisplay.ReplaceCharBack | llm-lab/frontend/components/ResultsDisplay.tsx:201 | when ' ' does not occur, the replacement can be undone |
| ResultsDisplay.CardsOf | llm-lab/frontend/components/ResultsDisplay.tsx:190-210 | cards render iff every value is present; each card has the spaced name, the value, the width 100 * value and the value's band |
| ResultsDisplay.MetricCardsOfRecord | llm-lab/frontend/components/ResultsDisplay.tsx:189-204 | a record's cards render iff it has an overall score, and then there are seven cards in stored key order |
| ResultsDisplay.CardsWithinBounds | llm-lab/frontend/components/ResultsDisplay.tsx:208-210 | values in [0, 1] give bar widths in [0, 100] |
| ResultsDisplay.StoredMetricsShowCards | llm-lab/frontend/components/ResultsDisplay.tsx:189-215 | the metrics the back end stores always render as cards, with widths in [0, 100] |
| ResultsDisplay.WordCount | llm-lab/frontend/components/ResultsDisplay.tsx:235 | the word count is one more than the number of whitespace runs, so at least 1 |
| ResultsDisplay.WordCountCountsWords | llm-lab/frontend/components/ResultsDisplay.tsx:235 | the word count equals the non-space words plus one for leading and one for trailing whitespace; an empty text counts 1 |

## Left out

- Calls to the OpenAI and Anthropic SDKs: what each call returns (text or an API error) is an input (`replies`). The prompt therefore has no effect on the replies, and the `max_tokens` and message arguments are not modelled.
- `asyncio.gather` concurrency: the tasks are modelled one after another, in grid order. Results are paired with parameters by position, which is all the source relies on.
- The `OPENAI_API_KEY` environment lookup and `load_dotenv`: the key is a parameter of `LlmService.NewService`. The commented-out mock fallback is absent from the code, so it is absent from the model.
- Database I/O, sessions and timestamps: the two tables are sequences in rowid order, and timestamps are integers passed in as `now`. A new row takes one past the largest rowid in use, or 1 in an empty table, as SQLite numbers an `INTEGER PRIMARY KEY` without `AUTOINCREMENT`; the rowid of a deleted last row is therefore reused, as in SQLite.
- Order among rows with equal `ORDER BY` keys: SQL leaves it open, and the model keeps table order (a stable sort).
- `Api.Store.Get`, `Api.Store.List`, `Api.Store.Export`: the 500 answers for unexpected database failures are not modelled. Under the store's invariant every stored metrics dict holds the six keys, so conversion cannot fail, and neither can the CSV export (`Api.ExportSucceeds`).
- Floating point: scores are exact `real`s. `round(x, 3)` is not applied, and `math.sqrt` is avoided by comparing the variance with 25 and 9 instead of the standard deviation with 5 and 3.
- Python and JavaScript text semantics beyond ASCII: `\w` and `str.lower` are taken over ASCII letters, digits and `_`. Whitespace is the full set of each language. The bullet character class of `metrics.py:194` is modelled as written, as three separate characters.
- `parseFloat` beyond plain decimals: the model reads an optional sign, then digits with an optional fraction, and ignores the rest. An exponent is therefore ignored: "1e-1" reads as 1, where JavaScript gives 0.1. "Infinity" reads as NaN where JavaScript gives Infinity, and the range filter drops both.
- The JavaScript number-to-string conversion in chart names: it is a parameter (`show`) of `ResultsDisplay.ChartData`.
- `toFixed(3)` display formatting and the CSS `capitalize` of card labels are not modelled.
- The character count of `ResultsDisplay.tsx:238` is not modelled. It counts UTF-16 code units and is a plain length.
- CSV quoting and the textual CSV output of `csv.DictWriter`: the model yields the header and the records as cell lists. The ISO rendering of timestamps is not modelled.
- Exception messages after the fixed prefixes ("Error: ", "OpenAI API error: ", "Error generating responses") are carried as given, not reproduced.
- `Api.BuildRows`: stops at the first result without content. The source builds every row and fails only at the commit, and the visible outcome (a 500 with both tables unchanged) is the same.
- The dashboard's JSON export (`handleExport`, `JSON.stringify` and the file download) is browser I/O and is not modelled.
- React state, `recharts` rendering and styling are not modelled. The same goes for `page.tsx`, `ExperimentHistory.tsx` and `api.ts`, which are not part of this model.
- The empty-prompt guards of the form's `required` attribute and disabled submit button are not modelled. They act in the DOM, outside `handleSubmit`.
- The `/`, `/health` and `/api/metrics/info` endpoints are not modelled. They return constant or configuration data.
- Text.Lower: the contract states only that the length is kept. Callers use the body, which maps A-Z to a-z through `LowerChar` and leaves every other character as it is; case folding beyond ASCII is not modelled.
