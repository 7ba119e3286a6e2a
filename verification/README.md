# note.com article and engagement automation, modelled in Dafny

This project models the deterministic core of a set of Node.js and Ruby
scripts that write investment articles with a remote text generator, save
them as drafts on note.com, and run engagement bots (likes, follows,
comments, publishing) against the site.

The model covers six areas:

- **The article text pipeline:**
  - splitting markdown on `##+` headings;
  - rewriting the sections under 200 UTF-16 units;
  - reassembly;
  - the affiliate blocks at the first, 40 % and last paragraphs;
  - removing level-1 heading lines;
  - the fixed footer and tag line;
  - title extraction in its four variants (the article generator, the workflow, the Ruby service and the cron endpoint);
  - the create-draft endpoint.
- **The bounded retry loops:**
  - three attempts with a 1000·k ms or a fixed 2000 ms back-off;
  - `retryOperation` with 5000·(i+1) ms;
  - the Ruby generator with a 1 s sleep;
  - error classification.
- **The management table:** the markdown table lists the articles still waiting for a draft, and stamping a row's draft date removes it from that list.
- **The draft-saving orchestrator:** the six browser steps, which of them throw, where a run stops, and when a row is stamped.
- **The engagement walkers:**
  - the publisher, the follow, like and comment scripts, and the serverless handlers;
  - the three-hourly search-word rotation.

  All walkers are instances of one generic walk with:
  - a success cap;
  - a failure budget;
  - a quota flag;
  - steps that halt the walk.
- **The small parsers:**
  - `parseIds`;
  - the checker's report line and its parser;
  - the Ruby note.com client's user-id extraction, search dedupe, status codes and login flag.

Every remote call, browser step, clock reading and random choice is a
parameter: an oracle value (a reply, a step outcome, a candidate's
outcome) or a recorded list of delays. Nothing is executed.

Modules follow the repository's structure:

| area | modules |
|---|---|
| shared string and list functions | `Outcomes`, `JsText`, `RubyText`, `Decimal` |
| article text | `MdSections`, `ArticlePipeline`, `Affiliate`, `Titles`, `AiArticle`, `Pipedream`, `LightweightCron`, `CreateDraftApi` |
| checker and rewrite tool | `SectionCheck`, `RewriteCheck` |
| retries | `Retry` |
| table and orchestrators | `MgmtTable`, `DraftSteps`, `DraftRun`, `AutoCreate` |
| walkers | `Walker`, `Rotation`, `AutoPublish`, `FollowArticles`, `CloudFollow`, `FollowSearch`, `FollowSearchMove`, `LikeUnliked`, `LikeByUrl`, `CommentWalk`, `EngagementApi` |
| Ruby client | `NoteService` |

## Model

| member | source | states |
|---|---|---|
| MdSections.SplitSections | autoCreateAndDraftNote.js:292-299 | `raw.split(/^##+ /m)`: putting every consumed marker back gives the input again. Every section opens after a `##+ ` marker. Neither the first part nor any section contains a heading line. There are no sections exactly when the input has no heading line. |
| MdSections.ScanEmptyIff | autoCreateAndDraftNote.js:292-295 | The split finds no section if and only if no line of the text opens with `##+ `. |
| MdSections.ScanNoHeading | checkSectionLengths.js:14-19 | Text without heading lines splits into one leading part and no section, so the checker warns and prints no section line. |
| MdSections.SectionBodyStopsOnlyAtRule | autoCreateAndDraftNote.js:300-305 | Inside a section the split produced, the body loop's `^##+ ` test never fires. Only a `---` line stops the body. |
| MdSections.BodyFromIsRuleBody | checkSectionLengths.js:24-29 | On lines that no heading marker opens, the body loop equals the loop that stops only at `---`. |
| MdSections.Splice | autoCreateAndDraftNote.js:518-521 | `lines.splice(1, …, newBody + '\n')` and the join: the result's lines are the old first line, then the new body's lines, then one empty line. |
| MdSections.SpliceKeepsHeading | autoRewriteAndCheck.js:192-194 | A splice keeps the section's heading. |
| MdSections.SpliceBody | autoCreateAndDraftNote.js:517-521 | A one-line new body with no marker and no `---` prefix is exactly the trimmed body that the next length check sees. |
| MdSections.SafeFirst | autoCreateAndDraftNote.js:542 | The first part ends in a newline, and at most one character is added to it. |
| MdSections.Headed | autoRewriteAndCheck.js:202 | Each section is prefixed with `## `, in order. |
| MdSections.Reassemble | autoRewriteAndCheck.js:199-202 | The written text opens with the newline-terminated first part, then `## ` and the first section. Without sections it is the first part alone. `ResplitReassembled` states what splitting it again gives. |
| MdSections.ResplitReassembled | autoRewriteAndCheck.js:199-205 | Splitting what the rewrite tool writes back gives the safe first part and the same sections. The sections are normalised to `## ` markers, and each section but the last carries one extra newline. |
| MdSections.NormalizedKeepsHeadingAndBody | autoRewriteAndCheck.js:202 | The newline that the join appends to a section changes neither its heading nor its body. |
| ArticlePipeline.ShortFlags | autoCreateAndDraftNote.js:511-513 | A section is flagged exactly when its body has fewer than 200 UTF-16 units. |
| ArticlePipeline.RewriteShortSections | autoCreateAndDraftNote.js:511-535 | The loop keeps one section per input section. The rewriter is invoked for exactly the short sections, in ascending order. |
| ArticlePipeline.RewriteKeepsHeadings | autoCreateAndDraftNote.js:517-528 | Every section keeps its marker and heading. A long section, or a section whose rewrite failed, is unchanged. A rewritten short section becomes its first line, the reply's lines and a final empty line. |
| ArticlePipeline.RewriteShortSectionsAt | autoCreateAndDraftNote.js:511-528 | Section j after the loop depends only on its own length test and its own rewrite call. |
| ArticlePipeline.RewriteFromInvoked | autoCreateAndDraftNote.js:511-516 | The rewriter is called for exactly the flagged sections, in order. |
| ArticlePipeline.RewriteDelays | autoCreateAndDraftNote.js:531-534 | Every wait of the loop is a 1000 ms or 2000 ms back-off of a call, or the 2000 ms pause between sections. |
| ArticlePipeline.NoShortSectionNoCall | autoCreateAndDraftNote.js:511-513 | Without a flagged section, nothing is called, nothing waits, and the sections are unchanged. |
| ArticlePipeline.ShortThenLong | autoCreateAndDraftNote.js:513-535 | A short section followed by a long one: a first-try rewrite is spliced in, and one 2000 ms pause follows because another section comes after. |
| ArticlePipeline.TagLine | autoCreateAndDraftNote.js:581-588 | The tag line is the trimmed first reply among three attempts. When all three fail, it is `#資産運用 #投資 #運用 #株 #投資信託 #FIRE #PR`. |
| ArticlePipeline.ArticleBody | autoCreateAndDraftNote.js:577-578 | After the `\n# .+$` removal, the body has no level-1 heading line. Every other line of the laid-out article, `## ` headings included, is kept as it was (`KeepLines`). |
| ArticlePipeline.RewriteAndTag | autoCreateAndDraftNote.js:506-601 | The output is exactly `Finish` of the level-1-free body and the tag line: the trimmed body, a blank line, the footer, a blank line, the tag line and `\n`, with nothing between them (`Affiliate.FinishDetermined`). The body has no level-1 line. The sections sent to the rewriter are the short ones. |
| ArticlePipeline.RewriteAndTagDiscloses | autoCreateAndDraftNote.js:553-599 | Whatever the oracles answer, the article carries the Amazon associate disclosure and the magazine promotion. |
| ArticlePipeline.TagFallback | autoCreateAndDraftNote.js:585-588 | When every tag call fails, the article ends with the fixed tag line. |
| ArticlePipeline.FallbackArticle | autoCreateAndDraftNote.js:684-733 | Main's catch block: exactly `Finish` of the affiliate layout and the fixed tags, so the trimmed affiliate layout, the footer and the fixed tag line joined by blank lines. Level-1 lines are not removed. |
| Affiliate.MiddleIndex | autoCreateAndDraftNote.js:495 | `Math.floor(n * 0.4)` lies between 1 and n−2 for n ≥ 3, so the middle block sits strictly between the first and last paragraphs. |
| Affiliate.InsertAffiliateLinks | autoCreateAndDraftNote.js:481-502 | The text opens with the first `\n\n` paragraph followed by the affiliate block, and closes with a blank line and the affiliate block; `Affiliate.InsertIsLayout` states the whole text. |
| Affiliate.InsertIsLayout | autoCreateAndDraftNote.js:481-502 | The code's string concatenations equal rendering an independent block layout of the `\n\n` paragraphs. |
| Affiliate.LayoutKeepsParagraphs | autoCreateAndDraftNote.js:487-501 | The layout keeps every paragraph, in order. It adds 2 affiliate blocks with fewer than 3 paragraphs, otherwise 3. It opens with paragraph 0 and a block, and ends with a block. |
| Affiliate.LayoutShort | autoCreateAndDraftNote.js:487-490 | With fewer than three paragraphs the layout keeps them all and holds two blocks. |
| Affiliate.LayoutLong | autoCreateAndDraftNote.js:492-501 | With three or more paragraphs the layout keeps them all and holds three blocks. |
| Affiliate.StripH1Lines | autoCreateAndDraftNote.js:577-578 | The global replacement of `\n# .+$` never lengthens the text. What it removes and keeps is stated by `Affiliate.StripIsKeepLines`, `Affiliate.StripAppend` and `Affiliate.StripLine`. |
| Affiliate.StripAppend | autoCreateAndDraftNote.js:577 | The replacement works line by line. Cutting the text just before a line terminator and removing in each part gives the same result as removing in the whole. |
| Affiliate.StripLine | autoCreateAndDraftNote.js:577 | A line after a `\n` is removed exactly when it reads `# ` followed by at least one character. Any other line is kept whole. |
| Affiliate.StripIsKeepLines | autoCreateAndDraftNote.js:577 | On every text, the replacement equals the line-by-line rule `KeepLines`: drop each `\n# ` line with text after the marker, and keep every other line as it is. |
| Affiliate.SubheadingSurvives | autoCreateAndDraftNote.js:577 | A `\n## ` line passes through the replacement unchanged, wherever it sits in the text. |
| Affiliate.H1GoesSubheadingStays | autoCreateAndDraftNote.js:577 | `"\n# " + t + "\n## " + h`, with t not empty and neither line broken, becomes `"\n## " + h`: the level-1 line goes and the `## ` line stays. |
| Affiliate.StripLeavesNoH1 | autoCreateAndDraftNote.js:577-578 | After the replacement, no `\n# ` line with text after the marker remains. |
| Affiliate.StripIdentity | autoRewriteAndCheck.js:215 | Text without such a line is left untouched. |
| Affiliate.StripIdempotent | autoCreateAndDraftNote.js:577-578 | Removing the lines twice equals removing them once. |
| Affiliate.Finish | autoCreateAndDraftNote.js:599 | The final text starts with the trimmed article, a blank line and the footer, ends with a blank line, the tags and `\n`, and is exactly as long as those two parts together, so nothing lies between them. |
| Affiliate.FinishDetermined | autoCreateAndDraftNote.js:599 | Any text with that head, that tail and that length is the joined article: the three clauses of `Finish` pin its result. |
| Affiliate.FinishDiscloses | autoCreateAndDraftNote.js:553-599 | The disclosure and the magazine promotion are present whatever the tags. |
| Retry.Retry | autoCreateAndDraftNote.js:353-405 | At most `max` calls (at least one when max > 0). A result is the first replied attempt, and every earlier attempt failed. No result means every attempt failed and the last error is reported. The delays are the back-offs after each failed call but the last. |
| Retry.RetrySucceedsIff | autoCreateAndDraftNote.js:353-405 | The loop succeeds if and only if one of the first `max` attempts replies. |
| Retry.AsAttempt | autoCreateAndDraftNote.js:362-375 | A reply with a message is a success whose value is the trimmed content. A missing `choices[0].message` is a failure carrying its reason. |
| Retry.ThreeAttempts | autoCreateAndDraftNote.js:424-465 | One to three calls. It succeeds if and only if some reply has a message, and then returns the first such reply trimmed. Otherwise it makes three calls and throws the prefix followed by the third reason. |
| Retry.RewriteSection | autoCreateAndDraftNote.js:351-405 | `rewriteSection` is the three-attempt loop with a 1000·k ms back-off. |
| Retry.GenerateTags | autoCreateAndDraftNote.js:424-465 | `generateTagsFromContent` follows the same contract as the section rewriter. |
| Retry.GenerateArticle | autoCreateAndDraftNote.js:210-273 | `generateArticle` makes three attempts with a fixed 2000 ms wait. |
| Retry.TwoFailuresThenSuccess | autoCreateAndDraftNote.js:376-403 | Two failures and then a reply: the third reply is returned after waits of 1000 and 2000 ms. |
| Retry.FirstSuccessNoWait | autoCreateAndDraftNote.js:426-449 | A first-try reply waits for nothing. |
| Retry.RetryOperation | pipedream-error-handling.js:30-40 | Undefined exactly when maxRetries = 0, with no call made. It returns exactly when some attempt within the bound replies, and the value is that reply. Otherwise it rethrows the last error after maxRetries calls. The waits are 5000·(i+1) ms between calls. |
| Retry.DefaultRetryWaits | pipedream-error-handling.js:30-38 | With the default of three, two failures wait 5000 ms and then 10000 ms. |
| Retry.HandleError | pipedream-error-handling.js:2-27 | Never a success. It asks for a retry exactly when the message contains `timeout`, which is checked before `selector`. `selector` gives the fixed missing-element message. Anything else keeps the original message. |
| Retry.TimeoutWinsOverSelector | pipedream-error-handling.js:6-20 | A message naming both words is classified as a timeout. |
| Titles.RegexTitleShape | autoCreateAndDraftNote.js:620-622 | The title `/^#\s*(.+)$/m` yields, when non-empty, is one trimmed line. |
| Titles.RegexTitleNeedsHash | autoCreateAndDraftNote.js:620 | Without a `#` at a line start, the expression matches nothing. |
| Titles.RegexTitleOfHeadingLine | autoCreateAndDraftNote.js:620-622 | An article that opens with `# t` takes the trimmed `t` as its title. |
| Titles.RegexTitleAfterBareHash | autoCreateAndDraftNote.js:620-622 | JavaScript's `\s*` crosses a line break: after a bare `#` line, the next line is the title. |
| Titles.FirstContentLineSpec | autoCreateAndDraftNote.js:625 | `find(line => line.trim().length > 0)` is the first line with content, and it is None exactly when every line is blank. |
| Titles.OriginalTitle | autoCreateAndDraftNote.js:619-626 | A title is never empty. The regular-expression title wins. Otherwise the title is `Utf16Prefix(line, 10)` of the first content line: its longest prefix within 10 UTF-16 units. With no content line it is `無題`. |
| Titles.LineTitle | autoCreateAndDraftNote.js:625 | `slice(0, 10)` of a line with content is a non-empty prefix of at most 10 units. |
| Titles.TitleVariants | autoCreateAndDraftNote.js:638-647 | The eight line patterns removed: plain, `#`, `##` and `###`, each of the original and the emoji title. |
| Titles.KeepLinesSpec | autoCreateAndDraftNote.js:649-652 | The filter keeps exactly the lines whose trimmed text is not a pattern, and nothing else. |
| Titles.KeepLinesNothingDropped | autoCreateAndDraftNote.js:649-652 | When no line matches a pattern, the lines are unchanged. |
| Titles.ExtractTitle | autoCreateAndDraftNote.js:618-657 | The returned title is the emoji, a space and the original title. |
| Titles.ExtractTitleFilters | autoCreateAndDraftNote.js:633-654 | No line of the filtered article trims to one of the eight patterns, and every article line that does not is kept. |
| Titles.FilterLines | autoCreateAndDraftNote.js:649-654 | Joining the kept lines with `\n` and splitting them again gives no pattern line, and keeps every line that is not one. |
| AiArticle.ContentLoop | rails-backend/app/services/ai_article_service.rb:112-145 | The `3.times` loop from attempt k makes at most 3−k calls and at least one. A success is the usable content of its last call. Every sleep is 1000 ms. |
| AiArticle.GenerateContent | rails-backend/app/services/ai_article_service.rb:112-145 | One to three calls. The content returned is never blank. |
| AiArticle.FirstUsable | rails-backend/app/services/ai_article_service.rb:133-137 | The first attempt whose reply has present content, or none. |
| AiArticle.ContentLoopOutcome | rails-backend/app/services/ai_article_service.rb:112-145 | The loop returns the first usable reply after exactly the calls up to it. Without one it makes every call. It then re-raises the third attempt's error when that attempt raised, and otherwise raises `AI記事生成に失敗しました`. |
| AiArticle.RaiseThenContent | rails-backend/app/services/ai_article_service.rb:138-141 | A raise and then content: two calls and one 1 s sleep. |
| AiArticle.BlankThenContent | rails-backend/app/services/ai_article_service.rb:133-137 | A blank reply is retried without sleeping. |
| AiArticle.ThreeRaises | rails-backend/app/services/ai_article_service.rb:138-141 | Three raises: the third error is re-raised after two sleeps. |
| AiArticle.ThreeBlanks | rails-backend/app/services/ai_article_service.rb:145 | Three blank replies end in the fixed failure without a sleep. |
| AiArticle.FallbackTitle | rails-backend/app/services/ai_article_service.rb:156-157 | The fallback title is never empty. |
| AiArticle.RejectLines | rails-backend/app/services/ai_article_service.rb:161 | `reject` never adds lines. |
| AiArticle.RejectLinesKeeps | rails-backend/app/services/ai_article_service.rb:161 | Exactly the lines whose strip is not `# title` are kept, and only lines of the input. |
| AiArticle.MultilineTitleSwallowsBody | rails-backend/app/services/ai_article_service.rb:150-163 | As written, under `/m` the capture runs to the end of the text. `# t\nrest` gets the title `t\nrest`, and its heading line stays in the article. |
| AiArticle.LineTitleDropsHeading | rails-backend/app/services/ai_article_service.rb:150-163 | With the capture ending at its line, `# t\nrest` gets the title `t`, and the `# t` line is removed. |
| AiArticle.FilterHeadingFilters | rails-backend/app/services/ai_article_service.rb:160-162 | No line of the filtered article is the `# title` line, and every other line is kept. |
| AiArticle.RewriteAndTag | rails-backend/app/services/ai_article_service.rb:169-181 | The result is the stripped content followed by the fixed footer and tags, and nothing else. |
| AiArticle.RewriteAndTagIgnoresPadding | rails-backend/app/services/ai_article_service.rb:180 | Surrounding whitespace of the content does not change the result. |
| AiArticle.RewriteAndTagRecoversContent | rails-backend/app/services/ai_article_service.rb:180 | Cutting the footer off gives back the stripped content. |
| AiArticle.GenerateWith | rails-backend/app/services/ai_article_service.rb:44-70 | It succeeds if and only if generation succeeds with non-blank content of at least 30 characters. The error otherwise is the generation error or `AI記事生成に失敗、または内容が不十分です`. The content is the filtered article with the footer added. |
| AiArticle.GenerateArticle | rails-backend/app/services/ai_article_service.rb:44-70 | `generate_article` as written: a non-empty title from the `/m` capture, with the footer appended. |
| AiArticle.GenerateArticleCorrected | rails-backend/app/services/ai_article_service.rb:44-70 | The same with the line-bounded capture. |
| AiArticle.GeneratedTitles | rails-backend/app/services/ai_article_service.rb:150-153 | For a generated `# t\nrest`, the service as written titles the draft `t\nrest` and keeps the heading line. The corrected extraction titles it `t`. |
| Pipedream.FirstH1 | pipedream-workflow.js:79-86 | The first trimmed line opening with `# `. None exactly when there is no such line. |
| Pipedream.BodyLinesKeep | pipedream-workflow.js:88-91 | The body keeps exactly the trimmed lines that do not open with `# `, and only those. |
| Pipedream.ScanTitle | pipedream-workflow.js:79-87 | The loop's title is the first `# ` line with its marker removed, or empty. |
| Pipedream.ScanBody | pipedream-workflow.js:88-91 | The loop's body is each kept line followed by `\n`. |
| Pipedream.ExtractLines | pipedream-workflow.js:74-100 | With a `# ` line, the title is that line without its marker. Without one, it is the first line trimmed. The filtered article is the trimmed text of the kept lines, each followed by a line break. |
| Pipedream.ExtractLinesSpec | pipedream-workflow.js:74-100 | With a `# ` line, the title is that line without its marker. Without one, it is the first line trimmed. The filtered article is the trimmed body. |
| Pipedream.BodyLinesSplit | pipedream-workflow.js:88-91 | The body holds no `# ` line and keeps every `##` line. |
| Pipedream.Run | pipedream-workflow.js:109-208 | The browser is launched only when the key and both credentials are set and the article has at least 30 units. The run succeeds exactly when it launched and the browser steps succeeded. |
| Pipedream.RunChecksInOrder | pipedream-workflow.js:114-135 | The checks come in order: key, then credentials, then article length, each with its own message. |
| LightweightCron.StripLabelNoColon | api/lightweight-cron.js:62 | A line without `:` or `：` is left unchanged by `replace(/.*[:：]\s*/i, '')`. |
| LightweightCron.StripLabelOneLine | api/lightweight-cron.js:62 | On one line with a colon, the greedy `.*` removes everything up to the LAST colon and the spaces after it. |
| LightweightCron.Classify | api/lightweight-cron.js:60-66 | A line mentioning `title` in any case, or `タイトル`, is a title line with its label stripped. Otherwise it is content when non-blank and not opened by `#`. |
| LightweightCron.LastTitle | api/lightweight-cron.js:60-63 | The last title line wins. |
| LightweightCron.ScanTitle | api/lightweight-cron.js:60-63 | The loop's title is the last title line's value, or the initial one. |
| LightweightCron.ScanContent | api/lightweight-cron.js:64-65 | The loop's content is each content line followed by `\n`. |
| LightweightCron.SplitReply | api/lightweight-cron.js:56-76 | The title is never empty. |
| LightweightCron.SplitReplyTitle | api/lightweight-cron.js:60-71 | The title is the last title line's value, or `Investment Information - ` and the date when that is empty. |
| LightweightCron.SplitReplyContent | api/lightweight-cron.js:64-76 | The content is the content lines, each terminated, or the whole reply when that is blank. Exactly the content lines are kept. |
| LightweightCron.Preview | api/lightweight-cron.js:84 | The preview is the content's longest prefix within 200 UTF-16 units followed by `...`: a content of at most 200 units is kept whole, and a cut one stops where the next character would pass 200. |
| LightweightCron.Handle | api/lightweight-cron.js:2-99 | 405 with `Method not allowed` exactly for a method other than GET and POST. A missing variable gives 500 with the missing-variables message. A refused request gives 500 with `OpenRouter API エラー: ` and the status and text, and a thrown error gives 500 with its message. 200 exactly when the variables are set and the generator replied, and then the body carries the split reply's title and the preview of its content. |
| CreateDraftApi.AtxMarker | api/create-draft.js:137 | `/^#{1,6}\s+/` matches exactly when the line opens with 1 to 6 `#` and then whitespace. The match covers the hashes and the whole whitespace run. |
| CreateDraftApi.HeadingText | api/create-draft.js:141 | The heading text is the line with the marker removed, and it does not open with whitespace. |
| CreateDraftApi.Classify | api/create-draft.js:137-144 | A line is a heading exactly when the marker matches. Any other line is body text as it stands. |
| CreateDraftApi.Collect | api/create-draft.js:136-150 | Every section pushed has a non-empty heading. |
| CreateDraftApi.CollectIsSections | api/create-draft.js:136-150 | The accumulator loop equals a reference definition. Each heading line opens a section whose body is the following non-heading lines, each with `\n`. A section with an empty heading is dropped. |
| CreateDraftApi.SplitPartsAreSections | api/create-draft.js:131-153 | `splitSections` equals that reference on the text's lines. |
| CreateDraftApi.NoHeadingNoSections | api/create-draft.js:147-152 | Text without heading lines yields no section, so nothing is rewritten. |
| CreateDraftApi.WantedFrom | api/create-draft.js:246 | The indexes sent to the rewriter are sections with a non-blank body, in order. |
| CreateDraftApi.Improve | api/create-draft.js:241-251 | The rewriter is called at most once per section. |
| CreateDraftApi.ImproveAllCalled | api/create-draft.js:241-251 | When every wanted section is answered, the loop succeeds after calling the rewriter for exactly the wanted sections, in order. |
| CreateDraftApi.ImproveStopsAtFailure | api/create-draft.js:241-251 | The first failing rewrite ends the loop with its error, after exactly the calls up to it. |
| CreateDraftApi.ImproveKeepsHeadings | api/create-draft.js:244-245 | A successful loop's content holds `# heading` followed by a blank line for every section. |
| CreateDraftApi.DraftTitle | api/create-draft.js:314 | The title is the topic, ` - ` and the pattern. Both can be read back from it. |
| CreateDraftApi.Content | api/create-draft.js:125-251 | A failed generation is the request's error. |
| CreateDraftApi.Handle | api/create-draft.js:6-360 | 405 exactly for other methods. A missing key, then missing credentials, give their own 500. 200 exactly when the variables are set, the content and tags were produced and the browser did not throw. The summary then carries the title, the content length in UTF-16 units and the tags. Every other failure is a 500 with an error body. |
| CreateDraftApi.HandleRewriteFailure | api/create-draft.js:246-248 | The first failing rewrite of a wanted section is the 500 body. |
| CreateDraftApi.HandleSucceeds | api/create-draft.js:241-350 | With every oracle answering, the request succeeds with the `topic - pattern` title. |
| Decimal.Show | checkSectionLengths.js:32 | `${len}` prints a non-empty run of digits without a leading zero. |
| Decimal.ValueShow | checkSectionLengths.js:32 | Reading the digits back gives the number. |
| Decimal.ShowInjective | checkSectionLengths.js:32 | Different lengths print differently. |
| Decimal.ToNumber | autoRewriteAndCheck.js:26-30 | `Number(str)` for decimal integer spellings: a negative value needs a `-` in the text. |
| Decimal.ToNumberShow | autoRewriteAndCheck.js:26-30 | Every printed non-negative number reads back through `Number`. |
| SectionCheck.Report | checkSectionLengths.js:30-35 | Under `minLength` the line is `「h」の本文がN文字と少なめです`, otherwise `「h」の本文はN文字（OK）`. |
| SectionCheck.CheckOutput | checkSectionLengths.js:5-37 | An unreadable file prints nothing on standard output. Otherwise the output opens with the section count line. |
| SectionCheck.NoHeadingReport | checkSectionLengths.js:14-19 | A file without `##` headings prints only `検出されたセクション数: 0`. |
| SectionCheck.ParseShortLine | autoRewriteAndCheck.js:84-85 | A captured heading is non-empty and holds no line terminator. |
| SectionCheck.GetShortSections | autoRewriteAndCheck.js:70-88 | A failing checker run gives no headings. |
| SectionCheck.ParseShortLineRoundTrip | autoRewriteAndCheck.js:84 | `/^「(.+)」の本文が(\d+)文字と少なめです/` captures exactly the heading of a short line the checker printed, for a printable heading without `」`. |
| SectionCheck.ParseOkLine | autoRewriteAndCheck.js:84 | An OK line is not taken for a short one. |
| SectionCheck.ParseCountLine | autoRewriteAndCheck.js:84 | The count line is not taken for a short one. |
| SectionCheck.ReadReportText | autoRewriteAndCheck.js:81-87 | Parsing the checker's report for given sections gives exactly their short headings, in order. |
| SectionCheck.ReportRoundTrip | autoRewriteAndCheck.js:70-88 | Parsing the checker's output for a file gives exactly the headings of the sections whose body is under 200 units, in order. |
| SectionCheck.BlankHeadingNotReported | autoRewriteAndCheck.js:84 | `(.+)` needs one character, so a section with an empty heading is never rewritten. |
| SectionCheck.UnreadableReportsNothing | checkSectionLengths.js:7-12 | An unreadable file reports no short section. |
| RewriteCheck.Range | autoRewriteAndCheck.js:28 | `Array.from({length: end - start + 1}, …)` is `start, start+1, …, end`, and empty when start > end. |
| RewriteCheck.ParseIdsNonNegative | autoRewriteAndCheck.js:23-32 | No id is negative, because a `-` always selects the range form. |
| RewriteCheck.ParseIds | autoRewriteAndCheck.js:23-32 | A missing argument gives no id. With a `-` the ids are consecutive. Without one there is at most one id per comma entry. `ParseIdsRange`, `ParseIdsList` and `ParseIdsNonNegative` state the values. |
| RewriteCheck.ParseIdsPair | autoRewriteAndCheck.js:25-28 | `x-y` is empty when either end is not a number or x > y, and otherwise is the range from x to y. |
| RewriteCheck.ParseIdsRange | autoRewriteAndCheck.js:25-28 | `a-b` of printed numbers is the range a..b, or empty when a > b. |
| RewriteCheck.ParseIdsList | autoRewriteAndCheck.js:29-30 | A comma list of printed numbers parses back to those ids. |
| RewriteCheck.EmptyEntryIsZero | autoRewriteAndCheck.js:30 | `Number('')` is 0, so `a,,b` gives `[a, 0, b]`. |
| RewriteCheck.FindFileById | autoRewriteAndCheck.js:35-39 | The first file matching `^id__.*\.md$`. None exactly when no file matches. |
| RewriteCheck.MatchesOneId | autoRewriteAndCheck.js:37 | A file name matches at most one id. |
| RewriteCheck.OneIsNotEleven | autoRewriteAndCheck.js:37 | The `__` after the id keeps id 1 from matching `11__x.md`. |
| RewriteCheck.Targeted | autoRewriteAndCheck.js:185-187 | A section is rewritten exactly when its heading is among the reported ones. |
| RewriteCheck.RewriteKeepsHeading | autoRewriteAndCheck.js:191-194 | The rewrite keeps the section's marker and heading. |
| RewriteCheck.RewriteBody | autoRewriteAndCheck.js:189-194 | A one-line reply becomes the section's body as the checker reads it. |
| RewriteCheck.RewritePass | autoRewriteAndCheck.js:185-198 | A finished pass keeps one section per section. |
| RewriteCheck.RewritePassError | autoRewriteAndCheck.js:185-198 | A pass fails if and only if a targeted rewrite fails, and with the first such error. |
| RewriteCheck.RewritePassContents | autoRewriteAndCheck.js:185-198 | In a finished pass, a targeted section is edited with its reply and every other section is unchanged. |
| RewriteCheck.ProcessLoop | autoRewriteAndCheck.js:163-210 | A file with nothing reported, or with no reported heading, finishes unchanged. A loop that finishes leaves such a file. |
| RewriteCheck.Untagged | autoRewriteAndCheck.js:212-215 | After the `\n# .+$` removal and the trim, no level-1 line remains. The result is the trim of the text with exactly its level-1 lines dropped (`KeepLines`). |
| RewriteCheck.TagStep | autoRewriteAndCheck.js:215-221 | A failed tag request fails the file. Otherwise the file starts with the untagged text, ends with the tag tail (three blank lines, the trimmed tags and `\n`), and is exactly as long as the two together. |
| RewriteCheck.UntaggedIsTrim | autoRewriteAndCheck.js:215 | Text without level-1 lines is only trimmed. |
| RewriteCheck.UntaggedIdempotent | autoRewriteAndCheck.js:215-219 | Removing the level-1 (`\n# `) lines and trimming a second time changes nothing. The `#tag` line is never removed, since the pattern needs `# ` with a space. |
| RewriteCheck.ProcessFile | autoRewriteAndCheck.js:163-223 | A finished file ends with the tag tail of the tags it was given. |
| RewriteCheck.Finish | autoRewriteAndCheck.js:211-222 | Only a finished loop gets its tags. An aborted or unfinished one is passed on unchanged. |
| RewriteCheck.FoundFiles | autoRewriteAndCheck.js:237-243 | Ids without a file are skipped, and every file returned exists. |
| RewriteCheck.Targets | autoRewriteAndCheck.js:226-236 | A missing argument and an argument without a valid id each exit with their own message. |
| RewriteCheck.RunFiles | autoRewriteAndCheck.js:237-246 | Files are processed in order, and the first aborted file ends the run. |
| RewriteCheck.RunFilesComplete | autoRewriteAndCheck.js:237-246 | Every file is processed exactly when none before the last aborts. |
| MgmtTable.TableLineIsTrimmedPipe | noteAutoDraftAndSheetUpdate.js:458 | A line is a table line exactly when its trimmed text starts with `\|`. |
| MgmtTable.TableLines | noteAutoDraftAndSheetUpdate.js:458 | The filter never adds lines. |
| MgmtTable.InPosts | noteAutoDraftAndSheetUpdate.js:469-470 | The path always starts with `posts/`. A name already under it is kept. Any other name follows the added prefix unchanged. |
| MgmtTable.PendingRows | noteAutoDraftAndSheetUpdate.js:465-476 | Every listed row index lies in the scanned range. |
| MgmtTable.ParseTableShape | noteAutoDraftAndSheetUpdate.js:465-476 | Listed rows are data rows (index ≥ 2), in increasing order, with paths under `posts/`. |
| MgmtTable.PendingRowsListed | noteAutoDraftAndSheetUpdate.js:465-476 | A row index is listed exactly when its row has an empty draft date and a non-empty file name. |
| MgmtTable.ParseUnsubmitted | noteAutoDraftAndSheetUpdate.js:454-478 | The listed rows are data rows (table line 2 onwards), in increasing order, with paths under `posts/`. A table of fewer than three lines lists nothing. `ParseUnsubmittedListed` says which rows are listed. |
| MgmtTable.ParseUnsubmittedListed | noteAutoDraftAndSheetUpdate.js:454-478 | With a table of at least three lines and both columns present, row j is listed exactly when it is a data row waiting for a draft. |
| MgmtTable.Pad | noteAutoDraftAndSheetUpdate.js:493 | `while (cols.length <= idx) cols.push('')` keeps the cells and adds empty ones until the index exists. |
| MgmtTable.SetCellReads | noteAutoDraftAndSheetUpdate.js:487-495 | Reading the stamped row back gives the date in the draft-date column. |
| MgmtTable.UpdateTouchesOneLine | noteAutoDraftAndSheetUpdate.js:481-504 | The write-back changes only the line holding the table row. Every other line, table or not, is kept. |
| MgmtTable.UpdateDraftDate | noteAutoDraftAndSheetUpdate.js:481-504 | Nothing is written exactly when the row lies past the table or the header has no draft-date column. Otherwise, for a date without a line break, the written file's lines are the old ones with the row's own line stamped and every other line as it was. |
| MgmtTable.UpdateWrites | noteAutoDraftAndSheetUpdate.js:481-504 | The written file is the original lines with that one line replaced by the stamped row. |
| MgmtTable.StampedRowUnlisted | noteAutoDraftAndSheetUpdate.js:454-504 | After a date is written into data row r, the listing is the old one without row r, and nothing else changes. |
| MgmtTable.StampedTable | noteAutoDraftAndSheetUpdate.js:465-476 | Giving row r a non-empty date cell removes exactly that row from the listing. |
| MgmtTable.NameTitle | noteAutoDraftAndSheetUpdate.js:86-89 | The title is a suffix of the file name. |
| MgmtTable.NameTitleRoundTrip | noteAutoDraftAndSheetUpdate.js:88-89 | `id__YYYY-MM-DD-title` gives back the title. |
| MgmtTable.UndatedNameIsTitle | noteAutoDraftAndSheetUpdate.js:88-89 | A name that does not start with digits is its own title. |
| DraftSteps.FirstPoll | noteAutoDraftAndSheetUpdate.js:326-330 | A bounded poll finds the first success within its tries, or none when every try fails. |
| DraftSteps.LogIn | noteAutoDraftAndSheetUpdate.js:215-259 | The click goes to the first button labelled `ログイン`. A navigation timeout throws. Otherwise the run is logged in exactly when the user icon appears, and exits with code 1 when it does not. |
| DraftSteps.GoToNewPost | noteAutoDraftAndSheetUpdate.js:263-356 | The click goes to the first visible post button, and without one the step throws. Both polls are bounded by five. The retry loop runs only after five failed polls. The step finishes exactly when a button was clicked, a poll or retry found the link, and the navigation did not throw. |
| DraftSteps.Navigate | noteAutoDraftAndSheetUpdate.js:354 | `waitForNavigation` finishes or throws its error. |
| DraftSteps.DragAndDrop | noteAutoDraftAndSheetUpdate.js:104-211 | The step always finishes, because every error is caught. The upload happens exactly when the add button, a thumbnail and the drop area exist. The save click goes to the first enabled `保存` button, only after the upload, the preview and the enabled state. |
| DraftSteps.FillArticle | noteAutoDraftAndSheetUpdate.js:360-385 | The step finishes exactly when both waits pass and both fields exist, and it then types the title and then the body. A missing title field types nothing and throws its message. A missing body field throws after typing the title. |
| DraftSteps.SaveDraft | noteAutoDraftAndSheetUpdate.js:389-406 | The click goes to the first button whose text contains `下書き保存`. The step finishes exactly when there is one. Otherwise it throws the missing-button message, or the wait's error. |
| DraftSteps.CloseDialogs | noteAutoDraftAndSheetUpdate.js:410-450 | The step always finishes. The first click goes to the first `閉じる` button. The dialog is polled one to five times and stops at the first poll showing `閉じる`. |
| DraftSteps.CloseFound | noteAutoDraftAndSheetUpdate.js:416-424 | A `閉じる` button is found exactly when the page shows one. |
| DraftSteps.Sequence | noteAutoDraftAndSheetUpdate.js:545-549 | Awaited steps in a row finish together exactly when each finishes. Otherwise they end with the first step that did not finish, and every step before it finished. |
| DraftSteps.FirstThrow | noteAutoDraftAndSheetUpdate.js:545-549 | A throw ending the sequence is the first step's throw. |
| DraftSteps.FiveSteps | noteAutoDraftAndSheetUpdate.js:545-549 | Five steps finish exactly when all five do. |
| DraftSteps.EditorStepsDone | noteAutoDraftAndSheetUpdate.js:545-549 | The editor steps finish exactly when opening the editor, filling and saving finish. Dropping and closing never fail. |
| DraftRun.Outcome | noteAutoDraftAndSheetUpdate.js:545-560 | An article is drafted exactly when its editor steps finish. |
| DraftRun.TurnOfContents | noteAutoDraftAndSheetUpdate.js:527-560 | With the home page loaded and the file read, an article's turn is the outcome of its five editor steps. |
| DraftRun.TurnFailsOnlyThrough | noteAutoDraftAndSheetUpdate.js:545-549 | Such an article is drafted exactly when opening the editor, filling and saving finish. |
| DraftRun.Stamp | noteAutoDraftAndSheetUpdate.js:481-504 | When `updateDraftDate` returns early, the table is unchanged. |
| DraftRun.WalkFrom | noteAutoDraftAndSheetUpdate.js:527-561 | The walk visits at most the pending articles, in order. |
| DraftRun.WalkStops | noteAutoDraftAndSheetUpdate.js:526-566 | The run errs exactly when some article fails. It then stops at the first failing article with that article's error. Otherwise it visits every article. |
| DraftRun.WalkDrafts | noteAutoDraftAndSheetUpdate.js:545-555 | An article's row is stamped exactly when it was visited and drafted. The stamps are those rows, in order. A skipped missing file is not stamped. |
| DraftRun.WalkTable | noteAutoDraftAndSheetUpdate.js:554-555 | After the walk, the table lists exactly the first listing without the stamped rows. |
| DraftRun.Main | noteAutoDraftAndSheetUpdate.js:507-569 | A process exit has code 0 or 1. |
| DraftRun.MainNothingPending | noteAutoDraftAndSheetUpdate.js:517-521 | Nothing pending: exit 0 before the login, with the table untouched. |
| DraftRun.MainLoginFails | noteAutoDraftAndSheetUpdate.js:238-246 | No user icon after the login: exit 1, with nothing stamped. |
| DraftRun.MainStatus | noteAutoDraftAndSheetUpdate.js:526-568 | After a login, the status is `error` exactly when some article fails, and the error is the first failure's. Otherwise it is `done`. |
| DraftRun.MainWalks | noteAutoDraftAndSheetUpdate.js:507-569 | After a login, the run is the walk over the listed rows, closing the browser on both paths. |
| DraftRun.MainStamps | noteAutoDraftAndSheetUpdate.js:507-569 | After the run, a row is still listed exactly when it was listed and not stamped. |
| DraftRun.WalkListing | noteAutoDraftAndSheetUpdate.js:527-561 | The same, for any walk over the listing. |
| DraftRun.MainDrafted | noteAutoDraftAndSheetUpdate.js:527-561 | Row k is stamped exactly when its article was drafted and no earlier article failed. |
| DraftRun.WalkStamps | noteAutoDraftAndSheetUpdate.js:527-561 | The same, for any walk over ascending rows. |
| AutoCreate.Prepared | autoCreateAndDraftNote.js:679-735 | When the rewrite throws, the text is exactly `Finish` of the affiliate layout and the fixed tags. Otherwise it is exactly `Finish` of the rewritten level-1-free body and the generated tag line. Both start with the trimmed body and the footer and end with the tag line. |
| AutoCreate.EditorEnding | autoCreateAndDraftNote.js:866-874 | The editor saves exactly when opening the editor, filling and saving finish. Otherwise it rejects. |
| AutoCreate.Drive | autoCreateAndDraftNote.js:855-882 | A launch timeout after 30 s and a launch or navigation error are rethrown. The process quits with 1 exactly when the login shows no user icon. The draft is saved exactly when every awaited step finishes. |
| AutoCreate.EditorReportsFirstFailure | autoCreateAndDraftNote.js:866-882 | A rejected run carries the first throwing editor step's error. |
| AutoCreate.Main | autoCreateAndDraftNote.js:660-883 | A generation that never replies rejects with the error's message, before any browser. A reply under 30 units returns early, before the browser. Otherwise the browser is launched with the extracted emoji title and the prepared text. The browser is closed exactly when the draft is saved. |
| AutoCreate.MainSavedTyped | autoCreateAndDraftNote.js:864-875 | A saved run logged in and typed the emoji title and then the prepared text. |
| AutoCreate.MainFallsBack | autoCreateAndDraftNote.js:684-735 | When the rewrite throws, the typed text ends with the fixed tag line. |
| AutoCreate.MainSavesWhenStepsFinish | autoCreateAndDraftNote.js:669-876 | A long enough article whose browser steps all finish is saved, and the browser is closed. |
| AutoPublish.StepOf | autoPublishNotes.js:61-168 | A draft ends the process exactly when its title cannot be read, or when its edit step throws on a title without `S-`. It counts exactly when it is postable. |
| AutoPublish.Steps | autoPublishNotes.js:61 | The walk runs from the last draft of the list to the first. |
| AutoPublish.Deciding | autoPublishNotes.js:61-168 | The deciding draft is postable or crashes. |
| AutoPublish.PublishFrom | autoPublishNotes.js:58-171 | At most `POST_LIMIT` = 1 draft is published, and only a postable one. The browser is closed exactly when the walk finishes. The process is not exited. |
| AutoPublish.Publish | autoPublishNotes.js:32-171 | An empty draft list closes the browser and exits with 1. A failed login exits with its code before any post. A published draft is postable. The browser is closed exactly when the list was empty or the walk finished. |
| AutoPublish.DecidingIsFirstDecisive | autoPublishNotes.js:61-62 | The walk's first decisive step, counted from the newest draft, is the deciding draft. |
| AutoPublish.PublishesNewestPostable | autoPublishNotes.js:61-168 | The run publishes the deciding draft exactly when it is postable. It crashes exactly when the deciding draft crashes. |
| AutoPublish.SkippedNeverPublished | autoPublishNotes.js:67-70 | A draft whose title starts with `S-` is never published. |
| FollowArticles.LinkedFrom | follow/followFromArticles.js:269-277 | Every creator kept lies at or after the start position, and the page element at that position carries the creator's name and a link. |
| FollowArticles.LinkedFromComplete | follow/followFromArticles.js:269-277 | Every linked name element from the start position on is kept, at its own position. The kept creators run in page order. |
| FollowArticles.CreatorsFaithful | follow/followFromArticles.js:269-289 | Each deduplicated creator is a linked element of the page with that name, and no two creators share a name. |
| FollowArticles.CreatorsComplete | follow/followFromArticles.js:282-289 | Every linked name on the page appears among the creators. |
| FollowArticles.CreatorsFirst | follow/followFromArticles.js:284-288 | A creator is the first linked element of its name: no earlier linked element has that name. |
| FollowArticles.StepOf | follow/followFromArticles.js:302-345 | An entry counts one follow exactly when its popup button reads `フォロー`. It raises the quota flag exactly when a quota dialog was shown meanwhile. Nothing in it throws out of the loop. |
| FollowArticles.Hovered | follow/followFromArticles.js:302-303 | The i-th iteration hovers the page entry at the i-th target, or nothing when the page has no entry there. |
| FollowArticles.Follow | follow/followFromArticles.js:77-353 | At most 15 follows are counted, and they are the follows among the entries visited. The loop stops early only at 15 follows or under the quota flag. With the flag, the browser is closed by the dialog handler and the process exits with 1. Without it, the browser is closed and there is no exit. |
| FollowArticles.FollowLimitedByQuota | follow/followFromArticles.js:80-297 | The quota flag is set exactly when a quota dialog was shown before the loop or during a visited entry. |
| FollowArticles.FollowStopsAtLimit | follow/followFromArticles.js:297 | A quota dialog before the loop means no entry is visited. No visited entry except the last showed a quota dialog. |
| FollowArticles.Targets | follow/followFromArticles.js:302-305 | The corrected loop hovers each creator's own page position. |
| FollowArticles.FollowRun | follow/followFromArticles.js:269-353 | At most 15 follows are counted, over at most as many iterations as there are creators. The count is the number of creators whose own entry shows `フォロー`, among those visited. |
| FollowArticles.FollowRunHoversOwnEntry | follow/followFromArticles.js:282-306 | The entry hovered for creator i carries creator i's name. |
| FollowArticles.FollowRunAsWritten | follow/followFromArticles.js:269-353 | As written, at most 15 follows are counted, over at most as many iterations as there are creators. |
| FollowArticles.AsWrittenSkipsLaterCreator | follow/followFromArticles.js:302-305 | On the page [a, a, b], the script as written hovers positions 0 and 1, so it never reaches creator b at position 2. |
| FollowArticles.AsWrittenMissesFollow | follow/followFromArticles.js:302-337 | On that page, with only b not yet followed, the script as written follows nobody and the corrected loop follows b. |
| FollowArticles.Script | follow/followFromArticles.js:209-229 | The search word is the rotation's pick over the 91 words (44 base and 47 work-trouble words), and the loop as written counts at most 15 follows over at most as many iterations as there are creators. |
| FollowArticles.NextRunNextWord | follow/followFromArticles.js:212-219 | The run three hours later on the same day searches for the next of the 91 words, wrapping after the last. |
| CloudFollow.ScrollSteps | cloud-run-scripts/follow/followFromArticles.js:50-53 | Ten scroll rounds, each raising the quota flag exactly when a quota dialog appeared during it. |
| CloudFollow.ClickSteps | cloud-run-scripts/follow/followFromArticles.js:59-70 | One step per follow button, counting one exactly when its click did not throw, and raising the flag on a quota dialog. |
| CloudFollow.AfterScroll | cloud-run-scripts/follow/followFromArticles.js:31-53 | A quota dialog before the scrolling leaves the flag raised after it. |
| CloudFollow.Automate | cloud-run-scripts/follow/followFromArticles.js:24-86 | When the page or button query throws, the result is unsuccessful, with no follows and the error's message. Otherwise it succeeds. The follow count is the number of clicks that did not throw among the buttons reached, and at most the number of buttons. The message says whether the limit was reached. A quota dialog before the scrolling sets `isLimit`. |
| CloudFollow.RunFollow | cloud-run-scripts/follow/followFromArticles.js:7-90 | Only a login that exits the process ends without a result. Every returned result closed the browser. A throwing login gives an unsuccessful result with its message. After a login the result is the automation's. |
| CloudFollow.HandleFollowRequest | cloud-run-scripts/follow/followFromArticles.js:93-102 | A reply is sent unless the login exited the process. The status is 200 exactly when the automation succeeded, and 500 otherwise. A launch that throws gives 500 with its message. |
| CloudFollow.LimitOnlyByQuota | cloud-run-scripts/follow/followFromArticles.js:31-60 | `isLimit` is set exactly when a quota dialog appeared before the scrolling, during a scroll round run, or during a click reached. |
| CloudFollow.NoClickAfterLimit | cloud-run-scripts/follow/followFromArticles.js:59-60 | A flag raised by the scrolling means no button is clicked. No button but the last reached saw a quota dialog. |
| CloudFollow.NoQuotaClicksAll | cloud-run-scripts/follow/followFromArticles.js:50-70 | Without any quota dialog, all ten rounds scroll, every button is reached, and `isLimit` stays false. |
| FollowSearch.Schedule | follow/followFromSearch.js:52-57 | The loop can run 13 iterations, in order. |
| FollowSearch.ClicksAsWritten | follow/followFromSearch.js:101-150 | An iteration counts at most two clicks, and none exactly when it does not follow. It counts two exactly when the first click went through, a later step of that attempt threw, and the retry clicked too. |
| FollowSearch.StepAsWritten | follow/followFromSearch.js:64-150 | As written, an iteration ends the walk exactly when no button was found; a throwing reload ends the script. It fails exactly when the CI visibility wait timed out or both attempts threw. Its gain is its click count. |
| FollowSearch.StepCorrected | follow/followFromSearch.js:64-150 | The corrected iteration ends the walk and the script in the same cases. It fails only when the first click was never dispatched and the retry threw, or the CI wait timed out. It counts one click exactly when it follows. |
| FollowSearch.StepsAsWritten | follow/followFromSearch.js:57 | One step per iteration of the loop, as written. |
| FollowSearch.StepsCorrected | follow/followFromSearch.js:57 | One step per iteration of the loop, corrected. |
| FollowSearch.FollowAsWritten | follow/followFromSearch.js:52-152 | As written, at most 13 iterations run and at most two failures are counted. The failures are those of the iterations run. At most two clicks are counted per iteration. |
| FollowSearch.Follow | follow/followFromSearch.js:52-155 | At most one click per iteration, at most 13 iterations, at most two failures. The clicks are the follows among the iterations run, and the failures are their failures. The walk ends early only at two failures or after an iteration without a button. The browser stays open exactly when the last reload threw. |
| FollowSearch.CorrectedWalk | follow/followFromSearch.js:57-152 | The corrected walk's counts are the follows and failures of the iterations it ran. It halts exactly after an iteration without a button. |
| FollowSearch.EntersUnderBudget | follow/followFromSearch.js:59-62 | Every iteration run started with fewer than two failures. |
| FollowSearch.ButtonsUntilLast | follow/followFromSearch.js:84-87 | Every iteration but the last found a button. |
| FollowSearch.AgreesWithoutLateThrow | follow/followFromSearch.js:101-150 | When no first attempt throws after its click went through, the script as written and the corrected walk agree. |
| FollowSearch.DoubleCountedClick | follow/followFromSearch.js:117-139 | One button found, whose first attempt throws after the click: the script counts two clicks, and the corrected walk counts one. |
| FollowSearch.Script | follow/followFromSearch.js:9-155 | The script as written. The walk runs exactly when the login succeeds and the first visit to the search page (line 43, outside any `try`) does not throw. That visit throwing ends the script. The walk is the as-written one: at most 13 iterations, two failures, and up to two counted clicks per iteration. |
| FollowSearch.ScriptCorrected | follow/followFromSearch.js:9-155 | The same script with the corrected walk. It runs in the same cases and counts at most one click per iteration run. |
| FollowSearch.ScriptDoubleCounts | follow/followFromSearch.js:117-139 | On the one-button run whose name lookup throws after the click, the script as written reports two clicks and the corrected script one. |

| FollowSearchMove.StepOf | follow/followFromSearchAndMove.js:77-132 | A visit ends the script exactly when opening its tab throws. It counts a click exactly when the click was dispatched, and a failure exactly when something inside the `try` threw. |
| FollowSearchMove.Steps | follow/followFromSearchAndMove.js:70 | One step per creator link, in page order. |
| FollowSearchMove.LinkWalk | follow/followFromSearchAndMove.js:65-133 | The walk counts at most 13 clicks and two failures, which are the clicks and failures of the visits it made. It halts exactly when the last visit's tab threw. |
| FollowSearchMove.FollowLinks | follow/followFromSearchAndMove.js:65-135 | At most 13 clicks and two failures, counted over the visits made. Links are left unvisited only at 13 clicks, at two failures, or after a tab that threw. The browser stays open exactly when the last tab threw. |
| FollowSearchMove.EntersUnderLimits | follow/followFromSearchAndMove.js:70-74 | Every visit started with fewer than 13 clicks and fewer than two failures. |
| FollowSearchMove.TabsClosedOnce | follow/followFromSearchAndMove.js:93-132 | Each visited tab is closed exactly once, except the one whose opening threw. |
| FollowSearchMove.AlreadyFollowedPassedOver | follow/followFromSearchAndMove.js:93-97 | Pages where every creator is already followed are all visited, with no click, no failure, and the browser closed. |
| FollowSearchMove.Script | follow/followFromSearchAndMove.js:39-135 | The walk runs exactly when the login succeeds and the links are collected. It visits at most the links and counts at most 13 clicks. |
| LikeUnliked.LikeCount | likeUnlikedNotes.js:249-250 | The loop is given `min(24, found)` buttons. |
| LikeUnliked.Steps | likeUnlikedNotes.js:253-291 | One step per button given to the loop, in page order. |
| LikeUnliked.LikeButtons | likeUnlikedNotes.js:253-294 | At most `min(24, found)` buttons are reached. The browser is closed exactly when none of them throws. Then all are reached and liked. Otherwise the loop stops at the first throwing button, having liked every button before it. |
| LikeUnliked.PressWalk | likeUnlikedNotes.js:253-291 | The walk's facts in terms of the buttons: everything reached without a throw, or a stop at the first throw. |
| LikeUnliked.PressWalkAll | likeUnlikedNotes.js:253-291 | Without a throwing button, every button given is reached and liked. |
| LikeUnliked.PressWalkHalts | likeUnlikedNotes.js:253-291 | The walk halts at the first throwing button. |
| LikeUnliked.PressWalkStops | likeUnlikedNotes.js:253-291 | On halting at the first throwing button, every button before it was liked. |
| LikeUnliked.LikesMinOfFound | likeUnlikedNotes.js:253-294 | With every press confirmed, exactly `min(24, found)` buttons are liked and the browser is closed. |
| LikeUnliked.LaterButtonsIgnored | likeUnlikedNotes.js:249-255 | Buttons after the first 24 never change the run. |
| LikeUnliked.Script | likeUnlikedNotes.js:204-255 | The loop runs exactly when the login and the search page succeed. The word is the rotation's pick among the 118, and at most 24 buttons are liked. |
| LikeUnliked.NextRunNextWord | likeUnlikedNotes.js:34-212 | The run three hours later on the same day uses the next word, wrapping after the last. |
| Rotation.RunIndex | likeUnlikedNotes.js:209-210 | The run of the day is between 0 and 7, and names the three-hour slot that holds the hour. |
| Rotation.WordIndex | likeUnlikedNotes.js:204-212 | The word index is a valid index into a list of `n` words. |
| Rotation.Word | likeUnlikedNotes.js:212-220 | The word picked is one of the list's words. |
| Rotation.NextRunSameDay | likeUnlikedNotes.js:34-57 | The run three hours later on the same day picks the next word, wrapping after the last. |
| Rotation.NextRunNextDay | likeUnlikedNotes.js:47-57 | The first run of a day picks the word after the previous day's last run. |
| Rotation.SameSlotSameWord | likeUnlikedNotes.js:209-212 | Two hours in the same three-hour slot pick the same word. |
| Rotation.ElevenWordTable | likeUnlikedNotes.js:34-57 | The worked table for eleven words: indices 8, 9, 0 and 4 on January 1st at 0, 3, 9 and 21 o'clock, and 5, 0 and 1 on January 2nd at 0, 18 and 21 o'clock. |
| Rotation.EveryWordReached | follow/followFromArticles.js:210-220 | From any run, every word is picked within `n` runs. |
| EngagementApi.Take | api/like-notes.js:126-133 | `slice(0, n)`: a prefix of the list, of length `n` or the whole list when shorter. |
| EngagementApi.Sweep | api/like-notes.js:137-170 | The count is at most the cap, and is the number of counting articles among those visited. Articles are left unvisited only once the cap is reached. |
| EngagementApi.SweepEntersUnderCap | api/like-notes.js:137-141 | Every article visited was reached with the count under the cap. |
| EngagementApi.SweepAllUnderCap | api/like-notes.js:137-170 | When the counting articles stay under the cap, all articles are visited and all of them counted. |
| EngagementApi.Gate | api/like-notes.js:7-19 | A method other than GET or POST gets 405. Otherwise a missing or empty email or password gets 500 with the credentials message. Otherwise the request goes through. |
| EngagementApi.LikeNotes | api/like-notes.js:7-199 | 405 exactly for another method, and 200 exactly when the credentials are present and the setup did not throw. On 200, at most 5 likes are counted among the first ten articles, the count is the likes among those visited, and the search index is the rotation's pick. A setup throw gives 500 with its message. |
| EngagementApi.AlreadyLikedNotCounted | api/like-notes.js:151-166 | Articles already liked or without a button are passed over uncounted. |
| EngagementApi.LikeLaterArticlesIgnored | api/like-notes.js:126-133 | Articles after the first ten never change the response. |
| EngagementApi.LikeNextRunNextWord | api/like-notes.js:53-62 | The request three hours later on the same day searches for the next of the words, wrapping after the last. |
| EngagementApi.PublishNotes | api/publish-notes.js:7-176 | The same status rules. On 200, at most 3 of the first five drafts are counted, and only drafts whose confirm button was clicked. A setup throw gives 500 with its message. |
| EngagementApi.UnconfirmedNotCounted | api/publish-notes.js:127-144 | Drafts stopped before their confirm click are never counted. |
| EngagementApi.FollowArticles | api/follow-articles.js:7-158 | The same status rules. On 200, at most 5 follows are counted among the first ten articles, and they are the clicked buttons among those visited. A setup throw gives 500 with its message. |
| EngagementApi.FollowsEveryButtonUnderCap | api/follow-articles.js:110-132 | With fewer than five follow buttons among the first ten articles, every one of them is clicked and counted. |
| NoteService.FindForm | rails-backend/app/services/note_service.rb:23-24 | The form found is one whose action mentions `login`. None is found exactly when no action does. When some form's action is the API login path, such a form is found. |
| NoteService.Login | rails-backend/app/services/note_service.rb:13-63 | The flag is set exactly when the login succeeds. It succeeds exactly when already logged in, or when the form and both fields were found and the submitted form landed on the dashboard. Credentials are submitted exactly when not yet logged in and the form and fields were found, and they are the given ones. |
| NoteService.LoginOnce | rails-backend/app/services/note_service.rb:14 | A logged-in client answers `true` at once and submits nothing, whatever the site does. |
| NoteService.FailedLoginChangesNothing | rails-backend/app/services/note_service.rb:13-63 | A failed login leaves a fresh client unchanged. |
| NoteService.CsrfToken | rails-backend/app/services/note_service.rb:201-204 | The token is the meta tag's content, or empty without the tag. |
| NoteService.CreateDraft | rails-backend/app/services/note_service.rb:66-116 | A draft is posted exactly when logged in and the new-post page loaded. The post carries the title, the content, the `draft` status, no eye-catch and the page's token. An id is returned exactly when the reply is 201 with an id, and it is that id. |
| NoteService.FollowUrl | rails-backend/app/services/note_service.rb:170 | The follow URL is the users API path ending in `/following`. |
| NoteService.FollowUrlNamesUser | rails-backend/app/services/note_service.rb:170 | Two users with the same follow URL are the same user. |
| NoteService.FollowUser | rails-backend/app/services/note_service.rb:157-196 | A follow is posted exactly when logged in and the home page loaded, to the user's follow URL with the home page's token. It succeeds exactly when the reply code is 200 or 201. |
| NoteService.PostsNeedLogin | rails-backend/app/services/note_service.rb:66-70 | After a failed login, neither a draft nor a follow is posted. |
| NoteService.FollowAfterLogin | rails-backend/app/services/note_service.rb:157-196 | After a successful login, a follow answered 201 succeeds. |
| NoteService.SegmentLength | rails-backend/app/services/note_service.rb:209 | The `[^/]+` run: no slash inside it, and a slash or the end right after it. |
| NoteService.FirstMatch | rails-backend/app/services/note_service.rb:209 | The leftmost position at or after `i` where the profile pattern matches, or none when it matches nowhere. |
| NoteService.ExtractUserId | rails-backend/app/services/note_service.rb:207-211 | An extracted id is non-empty, has no slash, and follows the profile prefix in the URL. There is none exactly when the pattern matches nowhere. |
| NoteService.ProfileUserId | rails-backend/app/services/note_service.rb:207-211 | The id of `https://note.com/<u>` followed by nothing or a path is `u`. |
| NoteService.Absolute | rails-backend/app/services/note_service.rb:137 | A link starting with `http` is kept, and any other gets the note.com origin in front. |
| NoteService.RelativeProfileUserId | rails-backend/app/services/note_service.rb:137-142 | A relative profile link `/<u>` yields the id `u`. |
| NoteService.Author | rails-backend/app/services/note_service.rb:128-144 | A summary yields an author exactly when it has both the name element and a link. The author's URL is the absolute link, the id is taken from it, and the name is the stripped text. |
| NoteService.FirstWithId | rails-backend/app/services/note_service.rb:148 | The first user with the id, or none when no user has it. |
| NoteService.UniqKeepsFirsts | rails-backend/app/services/note_service.rb:148 | `uniq` keeps an order-preserving subsequence: the first user of each id not seen before, with distinct ids. |
| NoteService.UniqKeepsEveryId | rails-backend/app/services/note_service.rb:148 | Every id not seen before is kept. |
| NoteService.SearchUsers | rails-backend/app/services/note_service.rb:119-154 | A page that raised gives no users. Otherwise at most one user per summary. |
| NoteService.SearchUsersFirstOfEachId | rails-backend/app/services/note_service.rb:128-148 | The users are the first author of each id in page order, with distinct ids, and every author's id is among them. |
| NoteService.AuthorUrlAbsolute | rails-backend/app/services/note_service.rb:137 | Every author URL is absolute. |
| NoteService.SearchUrlsAbsolute | rails-backend/app/services/note_service.rb:137-148 | Every URL the search returns is absolute. |
| LikeByUrl.Target | likeNotesByUrl.js:8-15 | The target is never empty. It is the default page, or the first argument that is not an option, with only options before it. |
| LikeByUrl.OptionsOnlyTargetDefault | likeNotesByUrl.js:9-15 | With only options on the command line, the default page is liked. |
| LikeByUrl.FirstUrlWins | likeNotesByUrl.js:9 | After any options, the first non-empty URL wins, whatever follows it. |
| LikeByUrl.StepOf | likeNotesByUrl.js:230-343 | No button ends the walk. A button counts a like exactly when it was liked, and an error exactly when a step of it threw. |
| LikeByUrl.LikeWalk | likeNotesByUrl.js:222-344 | The walk counts at most 50 likes, which are the likes and errors among the buttons processed. Buttons are left unprocessed only at 50 likes. |
| LikeByUrl.LikeAll | likeNotesByUrl.js:222-344 | At most 50 likes. The likes and errors are those of the buttons processed. Buttons are left unprocessed only once 50 likes have been made. |
| LikeByUrl.ProcessedUnderCap | likeNotesByUrl.js:229 | Every button processed was reached with fewer than 50 likes made. |
| LikeByUrl.PassedOverCountNothing | likeNotesByUrl.js:238-312 | Buttons already pressed, invisible or unclickable count as neither a like nor an error. A page of them is processed to the end. |
| LikeByUrl.Script | likeNotesByUrl.js:6-357 | The script exits with 1 before the browser exactly when the target is not under `https://note.com/`. A launch or `newPage` that throws ends the script before the `try`, with the browser left open. Otherwise the browser is closed. It stops without liking exactly when the page has no `スキ` button. At most 50 likes are made. |
| CommentWalk.ArticleUrl | commentFromArticles.js:124-126 | The article URL starts with `http`. It is the `href` when that starts with `http`, and otherwise the origin followed by the raw attribute. |
| CommentWalk.LoadHistory | commentFromArticles.js:36-43 | The history is something `push` throws on exactly when the file holds JSON that is not an array. An array is kept. An absent or unparsable file gives the empty list. |
| CommentWalk.StepOf | commentFromArticles.js:144-231 | A visit ends the loop exactly when it throws out of it, and a throw is a crash. It counts one exactly when it posts. |
| CommentWalk.Steps | commentFromArticles.js:140-142 | One step per article, in page order. |
| CommentWalk.Comment | commentFromArticles.js:134-238 | At most one comment. It is posted exactly when the first article that posts or throws posts. The browser stays open exactly when that article throws. A posted comment appends that article's URL and title to the history. Otherwise the history is unchanged. |
| CommentWalk.PassedOverIffIndecisive | commentFromArticles.js:160-215 | An article is passed over exactly when it has no comment field or no send button, or its popup has no send button. |
| CommentWalk.MissingPopupCounts | commentFromArticles.js:193-228 | A comment whose popup never appeared still counts, when it comes after articles that were passed over. |
| CommentWalk.NothingPostable | commentFromArticles.js:160-189 | Articles without a comment field or a send button alone are all visited, nothing is posted, and the history is untouched. |
| CommentWalk.Script | commentFromArticles.js:77-238 | The walk runs exactly when the login and the search succeed. The word is the rotation's pick among the ten, and at most one comment is posted. |
| CommentWalk.NextRunNextWord | commentFromArticles.js:95-100 | The run three hours later on the same day searches for the next of the ten words, wrapping after the last. |
| JsText.Trim | autoCreateAndDraftNote.js:625 | `String.prototype.trim`: the result is the input with its leading and trailing white space and line terminators removed, and nothing else. |
| JsText.TrimIdempotent | autoCreateAndDraftNote.js:625 | Trimming twice is trimming once. |
| JsText.Utf16Length | autoCreateAndDraftNote.js:625 | A string's length in UTF-16 code units is between its character count and twice that, and zero only for the empty string. |
| JsText.Utf16Prefix | autoCreateAndDraftNote.js:625 | `slice(0, n)` on whole characters: a prefix within `n` code units, the whole string when it fits, and otherwise as long as the next character does not fit. |
| JsText.JoinSplit | autoCreateAndDraftNote.js:519-521 | Joining the pieces of `split(c)` with `c` gives back the string. |
| JsText.SplitJoin | autoCreateAndDraftNote.js:519-521 | Splitting a join of pieces free of `c` gives back the pieces. |
| JsText.JoinSplitOn | autoCreateAndDraftNote.js:485-502 | Splitting on a longer separator and joining with it gives back the string. |
| RubyText.Strip | rails-backend/app/services/ai_article_service.rb:152-153 | `String#strip`: the result is an infix of the input with no white space or NUL at either end. Everything cut from either end is white space or NUL. |
| RubyText.RubySplit | rails-backend/app/services/ai_article_service.rb:156 | `split("\n")`: the pieces of the split with trailing empty pieces dropped. |
| RubyText.RubySplitJoin | rails-backend/app/services/ai_article_service.rb:161-162 | For a text not ending in a newline, joining the lines of `split("\n")` with newlines gives back the text. |

## Where the code and its description differ

The model follows the code in each of these cases:

- `autoCreateAndDraftNote.js` `main` (lines 855-882) closes the browser only after the last step succeeds. A failing step rethrows with the browser still open, and `AutoCreate.Main` records that.
- The reassembly in `rewriteAndTagArticle` (line 545) joins the sections with `'\n'` after `'## '`. It is not the inverse of `splitSections`, which keeps each section's own line ending. `MdSections.ResplitReassembled` states what the round trip does give.
- With fewer than three paragraphs, `insertAffiliateLinks` (lines 486-489) inserts the block after the first paragraph and again at the end. A one-paragraph text therefore gets the block twice, with only an empty paragraph between the two (`Affiliate.LayoutShort`).
- The final tag step is not idempotent: tagging an article that is already tagged appends a second footer.
- `extract_title_and_filter_h1` in `ai_article_service.rb` captures to the end of the text; see Findings.

## Left out

- I/O, clocks and randomness are parameters. This covers the file contents read and written, `dayOfYear` and the hour, the random topic, pattern, emoji, thumbnail and comment, and the cloud-run script's random search word. Real sleeps are recorded as lists of requested delays.
- DraftRun.Main: takes one `today` for the whole run. The source reads the UTC date again after each article (`noteAutoDraftAndSheetUpdate.js` line 554), so a run that crosses midnight UTC stamps later rows with the next day's date.
- Every browser, DOM and network outcome is an oracle value: what a step saw, whether it threw, a reply and its status code. Selectors, `page.evaluate` bodies, scrolling and the synthesized mouse and drag events are not modelled.
- Prompt texts and the generator's request bodies are opaque. The search-word lists are represented only by their lengths (118, 91, 28 and 10 words), which is all the rotation uses.
- The API-key check and connectivity test at the top of `autoCreateAndDraftNote.js` (lines 16-112) are left out, because they are I/O followed by `process.exit`.
- Dialog callbacks are not concurrent: each dialog is an event observed at the next loop boundary, as a list of messages per step.
- Browser launch options, headless flags, user agents, timeouts, screenshots and logging are left out.
- Decimal.ToNumber: models `Number(s)` for decimal integers only: optional white space, an optional sign and digits, with the empty string read as 0. Hexadecimal (`"0x1F"` is 31), exponent (`"1e1"` is 10), fractional (`"1.5"`) and `Infinity` spellings read as `NaN` in the model.
- RewriteCheck.ParseIds: inherits that restriction. `"0x1F"` gives `[31]` in JavaScript and `[]` here, and so does `"1e1"` (`[10]`). `"1.5"` gives `[1.5]`, and `findFileById`'s unescaped `^1.5__` pattern then matches `105__x.md`; the model gives `[]`. `"1-Infinity"` makes `Array.from` throw a `RangeError`; the model gives `[]`.
- JsText.Utf16Prefix: cuts at whole characters. JavaScript's `slice` and `substring` cut at a UTF-16 code unit and can leave half of a surrogate pair.
- Titles.OriginalTitle: inherits that. For `"123456789😀x"` JavaScript gives `"123456789\uD83D"`, a lone high surrogate; the model gives `"123456789"`.
- Titles.ExtractTitle: inherits the same difference through `Titles.OriginalTitle`.
- LightweightCron.Preview: inherits it at 200 units. A content whose 200th unit is the first half of a pair keeps that half in JavaScript and drops the whole character here.
- LightweightCron.Handle: inherits the difference through `LightweightCron.Preview`.
- DraftSteps: button and link texts are given already trimmed. The source compares `innerText.trim()`; the model takes the trimmed texts as the oracle's observation.
- RewriteCheck.ProcessLoop: the `while (true)` of `processFile` is bounded by a `fuel` parameter, and running out gives `Unfinished`. The source loops until nothing is reported or nothing changes, and a generator that keeps returning short bodies would loop forever.
- EngagementApi.LikeNotes: the button query includes `button:contains("いいね")`, which is not standard CSS. A browser rejects it, so the query throws for every article and is caught. The model takes each article's outcome as an oracle, which covers that case without forcing it.
- EngagementApi.FollowArticles: the follow-button query uses `:contains` in the same way.
- CreateDraftApi.Handle: the save-button query `page.$('button:contains("下書き保存"), …')` (`api/create-draft.js` line 327) is not standard CSS either. It sits in the handler's outer `try`, so in a browser it throws on every request and the response is a 500. The model treats that query as a step whose outcome is part of the `browser` oracle. The 200 path it describes is only reachable with a selector engine that accepts `:contains`.
- EngagementApi.PublishNotes: the edit, publish and confirm queries (`api/publish-notes.js` lines 121, 127 and 133) all use `:contains`. In a browser the edit query throws inside each draft's own `try`, so the count published is always 0. The model takes each draft's visit as an oracle outcome, which covers that case (`DraftThrew`) without forcing it.
- EngagementApi.LikeNotes: a throw before the loop reaches the outer `catch` without `browser.close()`. The response does not record whether the browser was closed, and the same holds for `EngagementApi.PublishNotes` and `EngagementApi.FollowArticles`.
- CloudFollow.Automate: `cloud-run-scripts/scripts/follow/followFromArticles.js` is a copy of `cloud-run-scripts/follow/followFromArticles.js` without the HTTP handler, differing only in comments. Both are modelled by the `CloudFollow` members.
- CommentWalk.Comment: the history record's ISO date is left out, and writing the history file is assumed not to throw.
- FollowSearchMove.FollowLinks: closing a tab is assumed not to throw.
- NoteService.FindForm: every form has an `action` string. A form without an `action` attribute is not represented. In the source `nil.include?` raises there, and the `rescue` turns the login into `false`.
- NoteService.SearchUsers: `CGI.escape` of the keyword is not modelled; the page fetched is a parameter.
- AutoPublish.Publish: dismissing the completion dialog is an oracle outcome, and a missing close button is swallowed as in the source.
- The wrappers and servers (`api.js`, `scheduler.js`, `cloud-run-scripts/server.js`, the other `api/*` entry points, the Rails controllers) are glue with no logic of their own and are not part of this model. The same goes for the placeholder scripts and the test and diagnostic scripts.

## Findings

| source | as written | input that shows it | evidently intended | confidence | as-written member | corrected member |
|---|---|---|---|---|---|---|
| rails-backend/app/services/ai_article_service.rb:150 | `/^#\s*(.+)$/m`: in Ruby `/m` lets `.` match a newline, so the capture runs from the first `#` line to the end of the text. The line filter then compares every line with that multi-line title and removes nothing. | `"# T\nbody"`: the title is `"T\nbody"`, and the `# T` heading stays in the posted content. | The title is the heading line's text, and that heading line is dropped. | not executed | AiArticle.MultilineTitleSwallowsBody, AiArticle.GeneratedTitles | AiArticle.LineTitleDropsHeading, AiArticle.GenerateArticleCorrected |
| follow/followFromSearch.js:117-139 | The first attempt counts its click (line 117) and then reads the creator name. When that read throws, the `catch` retries with a second `click()` and counts again (line 139). | One `フォロー` button whose first click goes through and whose name lookup throws: `clickCount` is 2 for one creator, and the second click can undo the follow. | A click that went through is done. Only a click that was never dispatched is retried, and each creator counts once. | not executed | FollowSearch.FollowAsWritten, FollowSearch.DoubleCountedClick | FollowSearch.Follow, FollowSearch.AgreesWithoutLateThrow |
| follow/followFromArticles.js:302-306 | After deduplicating creators by name, the loop hovers `userWrappers[i]`, the page entry at the creator's index in the deduplicated list, not the entry of that creator. | The page `[a, a, b]`, where only `b` is not yet followed: the loop hovers entries 0 and 1, both `a`, and follows nobody. | Hover each creator's own entry: the third entry for `b`, which is then followed. | not executed | FollowArticles.FollowRunAsWritten, FollowArticles.AsWrittenMissesFollow | FollowArticles.FollowRun, FollowArticles.FollowRunHoversOwnEntry |
