# Bella's conversational memory, modelled in Dafny

Bella is a browser companion that talks to a generative language model. This project models
the rules that decide what Bella remembers about the user and how a reply is prepared, and
proves properties of them:

- **Fact extractor** (`ProfileExtractor`, frontend/js/userProfileExtractor.js). Each message runs
  through ordered rule lists for name, birthday, likes and dislikes; the first valid match of
  each category wins, and a rejected name match moves on to the next rule. It also emits an
  explicit memory note as a fallback and a contextual-importance note, and normalises names and
  dates. Each regular expression is an abstract rule `string -> Option<Hit>`, where `Hit` is
  capture group 1 (`""` when absent or empty), the match index and the match length. The
  name filters, honorific stripping and date normalisation are written out concretely.
  `analyzeWithContext` (quoted referents for これ/それ/あれ) is modelled as well.
- **Conversation manager** (`Conversation`, frontend/js/conversationManager.js).
  - `ConversationManager` is a class whose two fields hold the two localStorage items: the
    profile and the conversation history.
  - `LiveProfile` is the parsed profile object that `updateProfile` mutates in place.
  - Each pure rule is also a function with its own lemmas: the profile merge, the history cap,
    the two expiry windows and the prompt context.
- **Keyword emotion classifier** (`EmotionAnalysis`, backend/services/emotionAnalyzer.js):
  weighted counts of non-overlapping keyword matches, then an argmax with the tie order
  positive, negative, neutral.
- **Reply post-processing** (`GeminiReply`, backend/services/gemini.js):
  - locating the JSON object in the answer;
  - validating the reply and clamping the affinity delta to [-10, 10], with a fixed fallback;
  - the 14-step cleanup of the text for speech synthesis.
- **UI helpers** (`UiHelpers`, frontend/script.js): subtitle chunking, the keyword reaction that
  picks a video, and the affinity-bar clamp.
- **File manager rules** (`FileBackup`, frontend/js/fileManager.js): `validateData`, and the
  backup file name and payload.

`Strings` supplies JavaScript's string built-ins: `\s`/`trim` whitespace, UTF-16 `length`,
`includes`, `join`, plus a "visible characters" projection. `Wrappers` supplies `Option`.

Units and numbers:

- Confidences are integer hundredths, so the acceptance test `confidence > 0.7` is `> 70`.
- Emotion weights are doubled to 2, 2 and 1 so that scores are natural numbers.
- Timestamps are integer milliseconds.

## Model

| member | source | states |
|---|---|---|
| ProfileExtractor.IsInvalidName | frontend/js/userProfileExtractor.js:153-180 | the five name filters, tried in the source's order (blacklist, over 20 units, under 2 units, all digits, special character); `IsInvalidNameMeaning` states their meaning |
| ProfileExtractor.IsInvalidNameMeaning | frontend/js/userProfileExtractor.js:153-180 | a trimmed name is accepted iff it contains no blacklist word, is 2..20 UTF-16 units long, is not all ASCII digits and has none of the special characters of line 175 |
| ProfileExtractor.HitsBlacklistIff | frontend/js/userProfileExtractor.js:155-157 | the blacklist scan is true iff some blacklist word occurs in the name |
| ProfileExtractor.BaseConfidence | frontend/js/userProfileExtractor.js:187-195 | the `baseConfidence` table: 0.9 name, 0.85 birthday, 0.8 like, dislike and memory; every type has an entry, so the fallback of 0.7 for an unknown type never applies |
| ProfileExtractor.Confidence | frontend/js/userProfileExtractor.js:186-197 | base 0.9/0.85/0.8/0.8/0.8 by category, plus exactly 0.05 under a memory request, never above 1.0 |
| ProfileExtractor.StripHonorific | frontend/js/userProfileExtractor.js:199-208 | a name ending in さん/くん/ちゃん/様/氏 loses exactly one such trailing suffix (so it becomes strictly shorter); a name without one is unchanged |
| ProfileExtractor.StripFirstSuffix | frontend/js/userProfileExtractor.js:204-205 | when some suffix in the list ends the value, the result is the value with one such suffix cut off; otherwise the value is unchanged |
| ProfileExtractor.StripHonorificOnce | frontend/js/userProfileExtractor.js:204-205 | only one honorific goes: 太郎さんさん becomes 太郎さん, 花子ちゃん becomes 花子 |
| ProfileExtractor.FindDateFromInput | frontend/js/userProfileExtractor.js:211-218 | the date found is the leftmost match of `(\d{1,2})[月/](\d{1,2})日?`, and its digit groups are ASCII digits copied from the input (leading zeros kept) |
| ProfileExtractor.NormalizeDate | frontend/js/userProfileExtractor.js:211-218 | a text holding a date token becomes `M月D日` built from its leftmost token alone; a text without one is returned as it is |
| ProfileExtractor.NormalizeDateNoMatch | frontend/js/userProfileExtractor.js:211-218 | input with no date token is returned unchanged |
| ProfileExtractor.NormalizeDateIdempotent | frontend/js/userProfileExtractor.js:211-218 | normalising a normalised date changes nothing |
| ProfileExtractor.Normalize | frontend/js/userProfileExtractor.js:199-209 | `normalizeValue`: a birthday goes through the date normalisation, a name loses one trailing honorific, and every other type is returned unchanged |
| ProfileExtractor.FirstValid | frontend/js/userProfileExtractor.js:126-150 | a category candidate has the category's type and confidence, `isExplicitlyRequested` equal to the request flag, and the match position |
| ProfileExtractor.FirstValidIsFirstUsable | frontend/js/userProfileExtractor.js:127-148 | first valid wins: no candidate iff no rule matches validly; otherwise the candidate comes from the first rule that does, every earlier rule having failed or produced a rejected name |
| ProfileExtractor.FirstUsableNone | frontend/js/userProfileExtractor.js:127-148 | the rule search finds nothing exactly when no remaining rule has a usable match |
| ProfileExtractor.FirstUsableSome | frontend/js/userProfileExtractor.js:127-148 | a rule the search finds has a usable match, and every rule tried before it had none |
| ProfileExtractor.FirstValidFromUsable | frontend/js/userProfileExtractor.js:127-148 | the candidate search and the rule search stop at the same rule, and the candidate is built from that rule's match |
| ProfileExtractor.AcceptedNamePassesFilters | frontend/js/userProfileExtractor.js:130-141 | an accepted name's trimmed capture passed all five filters before honorific stripping, and the stored value is that capture stripped |
| ProfileExtractor.RejectedNameSkipped | frontend/js/userProfileExtractor.js:130-136 | when the first name rule captures わからない (blacklisted), the second rule's " 太郎さん " gives the candidate 太郎 at 0.9 |
| ProfileExtractor.ExtractPattern | frontend/js/userProfileExtractor.js:126-150 | the loop with `continue` and `break` appends exactly the first valid candidate, or nothing |
| ProfileExtractor.MemoryFallback | frontend/js/userProfileExtractor.js:91-107 | a note exists iff some memory rule matches; it is an explicit memory note at 0.8 carrying a match position |
| ProfileExtractor.MemoryFallbackFirst | frontend/js/userProfileExtractor.js:93-104 | the note comes from the first memory rule that matches: its value is that match's trimmed group 1, or the whole message when the group is empty, and its position is that match's |
| ProfileExtractor.HasMemoryRequest | frontend/js/userProfileExtractor.js:182-184 | `checkMemoryRequest`: some memory rule matches the message |
| ProfileExtractor.FallbackLoop | frontend/js/userProfileExtractor.js:91-107 | the loop with `break` yields the note of the first matching memory rule, or nothing |
| ProfileExtractor.ContextualNote | frontend/js/userProfileExtractor.js:110-121 | a note exists iff the importance rule matches; it is a non-explicit memory note at 0.6 |
| ProfileExtractor.Extract | frontend/js/userProfileExtractor.js:72-124 | the candidate list of a message: the four category candidates, the fallback note when there is a request and no category matched, then the contextual note |
| ProfileExtractor.ExtractMultipleInfo | frontend/js/userProfileExtractor.js:72-124 | the method's output equals the candidate list `Extract` specifies: categories, then fallback, then contextual note |
| ProfileExtractor.ExtractOrder | frontend/js/userProfileExtractor.js:78-121 | the ranks name < birthday < like < dislike < explicit note < contextual note strictly increase along the output, so the order is fixed and each kind appears at most once |
| ProfileExtractor.ExtractParts | frontend/js/userProfileExtractor.js:72-124 | the output splits into category candidates (never memory), the fallback part (explicit, 0.8) and the contextual part |
| ProfileExtractor.ExtractCategoryFlags | frontend/js/userProfileExtractor.js:74-88 | every category candidate carries the single memory-request flag of the message and its category's confidence |
| ProfileExtractor.ExtractFallbackGate | frontend/js/userProfileExtractor.js:91-107 | an explicit memory note appears iff a memory request is present and no category produced a candidate; it is explicit and 0.8 |
| ProfileExtractor.CategoryEmptyIndependentOfFlag | frontend/js/userProfileExtractor.js:78-91 | whether any category matched does not depend on the memory-request flag |
| ProfileExtractor.ExtractContextualNote | frontend/js/userProfileExtractor.js:110-121 | the contextual note appears iff the importance rule matches, whether or not the fallback fired; it is 0.6, not explicit, and last |
| ProfileExtractor.FirstDemonstrative | frontend/js/userProfileExtractor.js:223 | finds the leftmost これ/それ/あれ; none is found iff none occurs |
| ProfileExtractor.CloseFrom | frontend/js/userProfileExtractor.js:226 | the lazy capture ends at the first closing bracket and never crosses a line terminator |
| ProfileExtractor.QuoteAt | frontend/js/userProfileExtractor.js:226-227 | a quoted referent is non-empty and contains no line terminator |
| ProfileExtractor.FirstQuote | frontend/js/userProfileExtractor.js:226-227 | the referent is the quote of the leftmost position where a 「…」 or 『…』 quote matches |
| ProfileExtractor.QuoteOfCake | frontend/js/userProfileExtractor.js:226-227 | the quote of 「ケーキ」 is ケーキ |
| ProfileExtractor.Substitute | frontend/js/userProfileExtractor.js:230 | the replacement text `replace` inserts: `$$`, `$&`, `` $` `` and `$'` expanded, every other character (`$1` and `$<` included, as the pattern has no groups) kept |
| ProfileExtractor.SubstituteLiteral | frontend/js/userProfileExtractor.js:230 | a referent without `$` is inserted exactly as it is |
| ProfileExtractor.SubstituteEscapes | frontend/js/userProfileExtractor.js:230 | `$$` inserts one `$` and `$&` the matched demonstrative |
| ProfileExtractor.ExpandDemonstrative | frontend/js/userProfileExtractor.js:230 | only the first demonstrative is replaced, by the referent with its `$` patterns expanded; the text before and after it is kept; without a demonstrative the message is unchanged |
| ProfileExtractor.ExpandLiteralReferent | frontend/js/userProfileExtractor.js:230 | a referent without `$` appears verbatim where the first demonstrative was |
| ProfileExtractor.ExpandMatchPattern | frontend/js/userProfileExtractor.js:230 | a quoted `$&` puts the demonstrative back, so the message is unchanged |
| ProfileExtractor.ExpandDoubleDollar | frontend/js/userProfileExtractor.js:230 | 「$$」 after これが好き gives `$が好き` |
| ProfileExtractor.AnalyzeWithContext | frontend/js/userProfileExtractor.js:221-236 | extraction on the message with its first demonstrative expanded when the message has one and the last previous message quotes something, otherwise on the message itself |
| ProfileExtractor.AnalyzeWithContextFallsBack | frontend/js/userProfileExtractor.js:221-236 | without a demonstrative, a previous message, or a quote in it, the result is plain extraction |
| ProfileExtractor.AnalyzeWithContextExpands | frontend/js/userProfileExtractor.js:221-236 | otherwise extraction runs on the expanded message, which holds the expanded referent where the demonstrative was |
| Conversation.DefaultProfile | frontend/js/conversationManager.js:20-30 | the profile `initializeStorage` writes when none is stored: no name or birthday, empty likes, dislikes and notes, `lastUpdated` now |
| Conversation.DefaultHistory | frontend/js/conversationManager.js:33-38 | the history `initializeStorage` writes when none is stored: no conversations, `sessionStarted` now |
| Conversation.UpdateProfile | frontend/js/conversationManager.js:141-192 | `updateProfile`: name and birthday overwrite; a like, dislike or note is appended only when absent, each with its confirmation message |
| Conversation.UpdateProfileMeaning | frontend/js/conversationManager.js:141-192 | name and birthday overwrite and report an update; a new like or dislike is appended as exactly that one value; a like, dislike or note is present afterwards and reported as an update iff it was absent; updated iff the profile changed (list kinds) iff a confirmation is produced; only the field of the candidate's kind changes; lists only grow at the end |
| Conversation.NewNoteKind | frontend/js/conversationManager.js:152-166 | a new note is appended with the text and date, typed 'explicit' iff the candidate was explicitly requested |
| Conversation.UpdatePreservesInvariant | frontend/js/conversationManager.js:152-188 | no like, dislike or note text ever appears twice |
| Conversation.UpdateIdempotent | frontend/js/conversationManager.js:141-192 | merging the same candidate again leaves the profile as it is and reports no update for likes, dislikes and notes |
| Conversation.LiveProfile.Update | frontend/js/conversationManager.js:141-192 | the in-place update leaves the object and returns the flag and message exactly as the merge specifies |
| Conversation.Accepted | frontend/js/conversationManager.js:96-97 | keeps exactly the candidates whose confidence is strictly above 0.7 |
| Conversation.MergeAll | frontend/js/conversationManager.js:92-104 | the turn's merge loop as a value: candidates above 0.7 go through `updateProfile` in order, collecting each update's message |
| Conversation.MergeAllOnlyAccepted | frontend/js/conversationManager.js:96-104 | a turn's merges depend only on the candidates above 0.7 |
| Conversation.MergeAllPreserves | frontend/js/conversationManager.js:94-104 | a turn's merges keep the no-duplicate invariant and every earlier note; `profileUpdated` iff some confirmation was collected; without an update the profile is untouched |
| Conversation.MergeAllUnchangedWithoutUpdate | frontend/js/conversationManager.js:106-109 | a turn without any reported update leaves the loaded profile unchanged |
| Conversation.MergeInto | frontend/js/conversationManager.js:92-104 | the in-place loop leaves the profile, the flag and the messages exactly as the turn's merge specifies |
| Conversation.MergeOne | frontend/js/conversationManager.js:97-103 | one candidate is merged in place iff it is above 0.7, collecting its message when it reports an update |
| Conversation.MergeAllNewNotesExplicit | frontend/js/conversationManager.js:96-104 | when every unrequested memory candidate is at most 0.7, every note added in the turn is 'explicit' |
| Conversation.ContextualNotesNeverStored | frontend/js/conversationManager.js:89-104 | notes merged from the extractor's output are never 'contextual' (the 0.6 notes fail the threshold) |
| Conversation.Cap | frontend/js/conversationManager.js:76-78 | the saved log is the newest min(n, 50) entries, in order |
| Conversation.CapAbsorbs | frontend/js/conversationManager.js:73-85 | capping, appending and capping again equals capping once |
| Conversation.SaveAllKeepsNewest | frontend/js/conversationManager.js:194-198 | any run of saves leaves the newest 50 of all saved entries, in original order |
| Conversation.FiftyOneSaves | frontend/js/conversationManager.js:76-78 | 51 saves into an empty log evict exactly the first entry |
| Conversation.Recent | frontend/js/conversationManager.js:200-203 | the newest `count` entries (all when fewer), and the whole log for `count` 0 (`slice(-0)`) |
| Conversation.Kept | frontend/js/conversationManager.js:238-248 | an entry is kept while younger than 7 days (important) or 24 hours (ordinary), by strict `<` |
| Conversation.Retained | frontend/js/conversationManager.js:234-251 | the cleanup filter keeps the kept entries in order |
| Conversation.RetainedMembers | frontend/js/conversationManager.js:238-248 | an entry survives cleanup iff it is under 7×24 hours old (important) or under 24 hours old (ordinary) |
| Conversation.RetainedAppend | frontend/js/conversationManager.js:238-248 | cleanup filters entry by entry, so survivors keep their order and nothing is added |
| Conversation.RetainedMonotone | frontend/js/conversationManager.js:234-251 | a later cleanup after an earlier one equals the later cleanup alone |
| Conversation.RetentionWindows | frontend/js/conversationManager.js:241-247 | important entries live 6 days but not 7 or 8; ordinary ones 23 hours but not 24 or 25 |
| Conversation.ProfileLines | frontend/js/conversationManager.js:207-215 | at most four lines; none iff all four fields are absent or empty; the name line comes first and the dislikes line last |
| Conversation.ProfileLinesMeaning | frontend/js/conversationManager.js:207-215 | each line is shown iff its field is present and non-empty, in the order name, birthday, likes, dislikes, with its label and value, and there are no other lines |
| Conversation.NoteLines | frontend/js/conversationManager.js:218 | exactly the last five notes (or fewer), oldest first, each prefixed "- " |
| Conversation.RenderEntries | frontend/js/conversationManager.js:221-223 | one `ユーザー: …\nBella: …` block per history entry |
| Conversation.RenderHistory | frontend/js/conversationManager.js:221-223 | the history text: each entry's user/Bella block, joined with a blank line |
| Conversation.RenderHistoryAppend | frontend/js/conversationManager.js:221-223 | the history text of a longer window is the two halves' texts with one blank line between |
| Conversation.RenderHistorySingle | frontend/js/conversationManager.js:221-223 | one entry renders as its user/Bella block alone |
| Conversation.CreateEnhancedPrompt | frontend/js/conversationManager.js:205-232 | the prompt object: the profile lines joined by newlines, the last five notes, the rendered history, the message and the update message |
| Conversation.ConversationManager.constructor | frontend/js/conversationManager.js:17-41 | missing items get the default profile and an empty history, then one cleanup pass runs; the log is within the cap |
| Conversation.ConversationManager.SaveConversationHistory | frontend/js/conversationManager.js:73-85 | the stored history is the given one with its log capped to 50 |
| Conversation.ConversationManager.SaveConversation | frontend/js/conversationManager.js:194-198 | the entry is appended at the newest end and the log capped; the profile is untouched |
| Conversation.ConversationManager.GetRecentHistory | frontend/js/conversationManager.js:200-203 | returns `Recent` of the stored log |
| Conversation.ConversationManager.CleanupOldHistory | frontend/js/conversationManager.js:234-251 | the stored log becomes its retained entries (capped) |
| Conversation.ConversationManager.ResetAllData | frontend/js/conversationManager.js:408-412 | both items are back to their defaults |
| Conversation.ConversationManager.ProcessUserMessage | frontend/js/conversationManager.js:87-139 | a turn merges the candidates above 0.7 and saves the profile with a new `lastUpdated` only when something changed. It builds the pending entry (empty reply, 'neutral', 0; important iff updated or any candidate was explicitly requested) and the prompt, and leaves the history alone |
| EmotionAnalysis.Occurrences | backend/services/emotionAnalyzer.js:27 | the number of non-overlapping matches of a keyword, found left to right |
| EmotionAnalysis.Score | backend/services/emotionAnalyzer.js:21-41 | a category's score: occurrences times weight, summed over its keywords |
| EmotionAnalysis.OccurrencesPositiveIff | backend/services/emotionAnalyzer.js:66-72 | a keyword's match list is non-empty iff the text contains the keyword |
| EmotionAnalysis.OccurrencesFit | backend/services/emotionAnalyzer.js:27 | counted matches do not overlap: count × keyword length ≤ text length |
| EmotionAnalysis.OverlappingKeywordsBothCount | backend/services/emotionAnalyzer.js:6 | in 大好き both 好き and 大好き are counted once |
| EmotionAnalysis.ScoreZeroIff | backend/services/emotionAnalyzer.js:21-41 | a category score is zero iff none of its keywords occurs |
| EmotionAnalysis.Classify | backend/services/emotionAnalyzer.js:43-56 | the emotion `analyze` picks from the three weighted scores |
| EmotionAnalysis.Decide | backend/services/emotionAnalyzer.js:43-56 | all-zero gives neutral; positive iff positive is non-zero and at least both others; negative iff non-zero, above positive and at least neutral; neutral from a non-zero score only when it beats both others |
| EmotionAnalysis.NoKeywordIsNeutral | backend/services/emotionAnalyzer.js:44-48 | a text with no keyword of any category is neutral |
| EmotionAnalysis.FoundIn | backend/services/emotionAnalyzer.js:66-91 | the records of one category: each occurring keyword with its count, in dictionary order |
| EmotionAnalysis.FoundInSound | backend/services/emotionAnalyzer.js:66-91 | every found-keyword record names a keyword of its category with its true, positive count |
| EmotionAnalysis.FoundInComplete | backend/services/emotionAnalyzer.js:66-91 | every keyword that occurs has a record |
| EmotionAnalysis.ScoreIsFoundTotal | backend/services/emotionAnalyzer.js:66-91 | a category's score is the weighted total of its records' counts |
| EmotionAnalysis.AccumulateScore | backend/services/emotionAnalyzer.js:26-41 | the loop's score is the sum of occurrences × weight over the category's keywords |
| EmotionAnalysis.Analyze | backend/services/emotionAnalyzer.js:20-57 | returns the tie-broken argmax of the three weighted scores |
| EmotionAnalysis.AccumulateFound | backend/services/emotionAnalyzer.js:66-91 | the loop adds the category's score and pushes its records in dictionary order |
| EmotionAnalysis.GetDetailedAnalysis | backend/services/emotionAnalyzer.js:60-104 | same emotion as `analyze`, which is also the argmax of the returned scores; the three scores; the records positive, then negative, then neutral |
| GeminiReply.ReplaceRuns | backend/services/gemini.js:190-196 | `replace(/c{n,}/g, r)`: every maximal run of at least n class characters becomes r, shorter runs are kept |
| GeminiReply.DeleteNotes | backend/services/gemini.js:181-182 | a `（メモ：…）` or `(メモ:…)` note is deleted up to its first closing bracket; an unclosed one stays |
| GeminiReply.DeleteAsides | backend/services/gemini.js:184 | from ※ up to the next sentence mark or line break is deleted, the sentence mark with it and the line break not |
| GeminiReply.ReplaceRunsKeepsOthers | backend/services/gemini.js:176-201 | a run replacement leaves every other character's count unchanged |
| GeminiReply.RemoveRange | backend/services/gemini.js:187-189 | no character of the removed emoji block remains |
| GeminiReply.CollapseSpaces | backend/services/gemini.js:201 | after `\s+` → ' ' every whitespace left is a space and no two are adjacent |
| GeminiReply.TrimCollapsedIsSpeakable | backend/services/gemini.js:201-202 | trimming collapsed text leaves no line break, no adjacent whitespace and no whitespace at either end |
| GeminiReply.Untrimmed | backend/services/gemini.js:177-200 | the 13 replacements of `cleanTextForSpeech` in the source's order, before the final trim |
| GeminiReply.CleanTextForSpeech | backend/services/gemini.js:173-203 | the 13 replacements and the trim, in the source's order; an empty text gives '' |
| GeminiReply.CleanTextIsSpeakable | backend/services/gemini.js:173-203 | for every input, the cleaned text has no line breaks, no two consecutive whitespace characters, and no leading or trailing whitespace |
| GeminiReply.CleanEmpty | backend/services/gemini.js:174 | an empty text cleans to '' |
| GeminiReply.CleanRemovesEmoji | backend/services/gemini.js:187-189 | no character of U+1F300–1F9FF, U+2600–26FF or U+2700–27BF survives the whole chain |
| GeminiReply.JsonSpan | backend/services/gemini.js:144 | a found span starts with `{` and ends with `}` |
| GeminiReply.JsonSpanMeaning | backend/services/gemini.js:144-147 | a span exists iff some `{` precedes some `}`; it runs from the first `{` to the last `}` |
| GeminiReply.Clamp | backend/services/gemini.js:158 | the change lies in [-10, 10], equals the input when already in range, and NaN stays NaN |
| GeminiReply.ToNumber | backend/services/gemini.js:158 | JavaScript's number coercion of the change inside `Math.min`: numbers as they are, strings through `numeric`, true as 1, false and null as 0, anything else NaN |
| GeminiReply.HasRequired | backend/services/gemini.js:152-154 | the property check: a truthy text, a change that is not undefined (0 passes), a truthy emotion |
| GeminiReply.Fallback | backend/services/gemini.js:164-168 | the fallback reply: the fixed text ending in 💭, change 0, emotion 'neutral' |
| GeminiReply.ParseResponse | backend/services/gemini.js:141-168 | the JSON span, the three-field check, the clamp and the text cleanup, or the fixed fallback |
| GeminiReply.ParseResponseFallback | backend/services/gemini.js:141-168 | no `{…}` span, or a reply missing its text, its change or its emotion, gives the fallback reply |
| GeminiReply.ParseResponseAccepted | backend/services/gemini.js:152-160 | an accepted reply passes its emotion through, keeps an in-range change (0 included) and cleans its text |
| GeminiReply.ParseResponseBounds | backend/services/gemini.js:156-167 | every reply's numeric change lies in [-10, 10] and its text is speakable |
| GeminiReply.FallbackSpeakable | backend/services/gemini.js:165-167 | the fallback text is speakable |
| UiHelpers.SplitKeep | frontend/script.js:529 | `split(/([。！？、])/)`: the text between delimiters, each delimiter kept as its own piece after it |
| UiHelpers.SplitKeepShape | frontend/script.js:529 | the split alternates delimiter-free text pieces with one-character delimiter pieces |
| UiHelpers.SplitKeepConcat | frontend/script.js:529 | the pieces concatenate back to the text |
| UiHelpers.SplitTextIntoChunks | frontend/script.js:522-548 | a text of at most `maxLength` units is returned as `[text]`. Otherwise every chunk is non-empty and trimmed, and is within `maxLength` unless it is a single split piece. The chunks' visible characters are the text's, in order |
| UiHelpers.PackPieces | frontend/script.js:530-545 | the greedy packing loop yields well-cut chunks carrying all visible characters of the pieces |
| UiHelpers.PackStep | frontend/script.js:532-541 | one packing step keeps the chunks well cut, keeps the current chunk within `maxLength` or a single piece, and loses no visible character |
| UiHelpers.FlushKeeps | frontend/script.js:535-537 | pushing the trimmed current chunk keeps the chunks well cut and moves its visible text into them |
| UiHelpers.FlushWellCut | frontend/script.js:535-537 | pushing the trimmed current chunk keeps every chunk non-empty, trimmed and within `maxLength` unless it is one piece |
| UiHelpers.FlushVisible | frontend/script.js:535-537 | the visible characters after the push are the old chunks' followed by the current chunk's |
| UiHelpers.KeepNonEmpty | frontend/script.js:547 | drops empty chunks and nothing else |
| UiHelpers.ReactionOf | frontend/script.js:382-394 | the video switch `analyzeAndReact` chooses: positive words first, then negative words, otherwise none |
| UiHelpers.ReactionMeaning | frontend/script.js:382-394 | positive iff a positive word occurs (even beside a negative one); negative iff no positive and some negative word; no switch otherwise |
| UiHelpers.OpeningWithSukiIsPositive | frontend/script.js:385-389 | a message starting with 好き is positive whatever follows |
| UiHelpers.NewWidth | frontend/script.js:397-401 | the new width lies in [0, 100] |
| UiHelpers.NewWidthMeaning | frontend/script.js:398-399 | the bar moves by exactly the change inside [0, 100] and stops at the ends; a width of 0 or an unparsable width counts as 65 |
| UiHelpers.NewWidthMonotone | frontend/script.js:399 | a larger change never gives a smaller width |
| FileBackup.Get | frontend/js/fileManager.js:158-161 | a property is present iff the value is an object that has it |
| FileBackup.ValidateData | frontend/js/fileManager.js:152-165 | `validateData`: an object is required; a profile needs a string or null name, a history an array `conversations` |
| FileBackup.ValidateDataMeaning | frontend/js/fileManager.js:152-165 | null and non-objects fail; a profile needs a string or null name; a history needs an array of conversations; any object or array passes otherwise |
| FileBackup.ProfileNameCases | frontend/js/fileManager.js:158-159 | a missing or numeric name fails, an empty-string name passes |
| FileBackup.Dashed | frontend/js/fileManager.js:90 | every `:` and `.` becomes `-`, everything else is kept |
| FileBackup.BackupName | frontend/js/fileManager.js:90-91 | the type, `_backup_`, the timestamp with `:` and `.` dashed, and `.json` |
| FileBackup.BackupNameShape | frontend/js/fileManager.js:90-91 | the name starts with the type, has no colon, and its only dot begins `.json` |
| FileBackup.BackupPayload | frontend/js/fileManager.js:93-100 | the data's fields spread into a new object with `backupInfo` set to the timestamp, type and version 1.0 |
| FileBackup.CreateBackup | frontend/js/fileManager.js:89-101 | the backup's file name and payload; the two timestamps are separate clock readings |
| FileBackup.BackupPayloadMeaning | frontend/js/fileManager.js:93-100 | the payload keeps every field of the data and adds or overwrites `backupInfo` with the type, version 1.0 and timestamp |
| FileBackup.BackupPreservesValidity | frontend/js/fileManager.js:93-100 | a backup payload is valid for its type exactly when the data is |

## Left out

- Conversation.ConversationManager.ProcessUserMessage: the separate clock readings of one turn (the profile's `lastUpdated`, the entry's `timestamp` and each new note's `date`) are modelled as the single instant `now`.
- Network and storage I/O are not modelled:
  - the server saves inside `saveUserProfile`/`saveConversationHistory`;
  - `saveToServer`, `createServerBackup`, `getServerFileStats`, `importFromFile`;
  - file pickers and downloads;
  - the Node file storage and the Express routes.

  localStorage is the two fields of `ConversationManager`, which always hold parsed values.
  JSON serialisation, and the fallbacks `loadUserProfile` and `loadConversationHistory` use
  for unreadable items, are not modelled.
- Timers are not modelled: the periodic cleanup and backup, the speech-recognition restarts and
  the subtitle syncing. Cleanup is an explicit method with a `now` argument.
- Clocks are parameters.
  - Timestamps are integer milliseconds, so ISO date parsing and an unparsable timestamp (NaN,
    which drops the entry) are not modelled.
  - `generateId` is an abstract `id` parameter.
- The regular expressions of the extractor's rule tables are abstract rules. A category rule
  whose group 1 does not participate would make `match[1].trim()` throw. The model reads such a
  group as `""`.
- `CreateEnhancedPrompt` takes the profile's fields as always present, so the optional chaining
  on `preferences` and `customNotes` has no case here.
- Floating point is not modelled:
  - confidences are hundredths;
  - emotion weights are doubled;
  - JSON numbers, the affinity bar and its change are integers.
- `ParseResponse`: `JSON.parse` is the parameter `decode`, and string-to-number coercion is the
  parameter `numeric`. Arrays as a change are treated as NaN, although JavaScript coerces `[]`
  to 0 and `[5]` to 5.
- `EmotionAnalysis.Occurrences` matches keywords as code points. Every keyword is plain text
  with no regular-expression metacharacters, so this gives JavaScript's UTF-16 results.
- `FileBackup.BackupPayload` models the spread of an object only. `createBackup` is called with
  the profile and history objects; spreading an array or a string is not modelled.
- The Google client, the prompt templates and all DOM, video, audio and speech code are not
  modelled.
