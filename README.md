# Notion content renderer and property normaliser, modelled in Dafny

This project models the two pieces of real logic in a personal portfolio site that reads
its content from Notion.

- **`notionToHtml`** (components/MarkdownRenderer.tsx). It translates the Markdown-like
  text of a Notion page into styled HTML. The translation is a fixed pipeline:
  1. Protect fenced code blocks behind `__CODE_BLOCK_i__` placeholders.
  2. Escape `&`, `<` and `>`.
  3. Headings.
  4. Highlight, bold, italic, strike, inline code and links.
  5. Horizontal rules, callouts and quotes.
  6. A line-by-line table state machine.
  7. A line-by-line list state machine.
  8. Restore the code blocks.
  9. Assemble paragraphs.
  10. Images.
- **`getPageProperties`** (lib/notion.ts), with the record builders of the fetch functions.
  `getPageProperties` turns the typed property values of a Notion page into plain values.
  The record builders pick each field from a chain of alternative property names with a
  fixed default.

## How the model is built

- **Regular expressions.** Every regular-expression pass is one instance of a generic
  left-to-right global replacement (`Rewrite.Replace`). Each fixed pattern has a
  hand-written matcher. The matcher says whether the pattern matches at a position, how
  far the match reaches, and what replaces it. The JavaScript backtracking (lazy `.*?`,
  greedy `\s*`, multiline `^`/`$`, `.` stopping at line terminators) is resolved by hand
  in each matcher. Each matcher's contract states exactly when it matches and what it
  produces. The code-block matcher `CodeFences.CodeBlockAt` is the exception: where a fenced
  block ends is stated by `CodeFences.FenceEndMatches`, and what it renders by
  `CodeFences.FencedBlockHit` and `CodeFences.RenderFencedBlock`.
- **Passes that change state.** Code extraction, the table loop, the list loop, code
  restoration and `getPageProperties` all build their result step by step in the source.
  They are methods with loops. Each is proved equal to a specification function. The
  table and list machines are also proved equal to independent block-by-block
  descriptions.
- **Pure passes.** The whole-string substitutions are functions. Lemmas relate them to
  reference definitions, e.g. per-character escaping, a decoder, or splitting and
  reweaving.

The model keeps these behaviours of the code, some of them surprising:

- A code fence without a closing fence is not extracted. It stays in the text and goes
  through every other pass.
- Code bodies are restored raw and are never escaped. The restoring `replace` takes a
  string pattern, so `$$`, `$&`, `` $` `` and `$'` in a code body are expanded the way
  JavaScript expands them (`CodeFences.Substitute`).
- No nested lists are built. On a change of list kind or depth, the buffered items are
  dropped and only a closing tag is emitted.
- The header test of the table pass uses line positions in the whole document: line 0,
  or line 2 when line 1 is a header rule. In `[\s:-\|]` the `:-\|` is a range from `:` to
  `|`, which does not contain `-`, so `| --- | --- |` is not a header rule while `|---|` is.
- `"|".substring(1, 0)` is `"|"`, because JavaScript swaps the arguments. A lone `|` line
  therefore gives two empty cells.
- A user's `>` is escaped before the quote pass, so the quote pass never changes
  anything. The callout pattern is not anchored to a line start, so it can fire after the
  `>` of a tag an earlier pass produced (a heading or a bold run that starts with `[!NOTE]`).
- A plain `![alt](url)` with a non-empty alt does not become a figure, because the link
  pass has already rewritten the inner `[alt](url)`. Text that an earlier pass rewrites can
  still leave an image shape for the image pass, and that becomes a figure. Two examples:
  - In `![a**[!NOTE]**](b)`, the bold run stops the link pattern. Then the callout fires at
    the `>` of the `strong` tag.
  - In `[l](![x)](y)`, the link takes `![x` as its URL.

  The image pass also applies inside restored code.
- Whitespace-only content is not empty, so it is rendered. Without a newline it gives `""`
  (`Renderer.BlankRendersEmpty`). With a blank line the paragraph split makes several empty
  blocks, and the join gives one `\n\n` for each separator, so `"\n\n"` comes out as `"\n\n"`.

## Model

| member | source | states |
|---|---|---|
| Renderer.NotionToHtml | components/MarkdownRenderer.tsx:12-248 | the result is the stages composed in source order; empty content gives exactly `<p>No content available</p>` |
| Renderer.QuotePassIsIdentity | components/MarkdownRenderer.tsx:24-71 | on the pipeline's intermediate text the quote pass at line 71 is the identity: escaping removed every `>`, and no earlier pass puts a `>` at a line start |
| Renderer.PlainTextIsOneParagraph | components/MarkdownRenderer.tsx:12-248 | content of word characters and whitespace other than newlines, not all whitespace, renders as one `notion-paragraph` holding the trimmed text |
| CodeFences.FenceEndMatches | components/MarkdownRenderer.tsx:17 | a fenced block matches at p exactly when a fence is at p and another fence starts 3 or more characters later; the match ends with the first such fence |
| CodeFences.PiecesReassemble | components/MarkdownRenderer.tsx:17-21 | the cut into characters and blocks loses nothing: the pieces put together give the text back |
| CodeFences.BlocksAreFenced | components/MarkdownRenderer.tsx:17-21 | every extracted block is a fence, a body without a fence, a fence |
| CodeFences.NoClosingFenceNoBlocks | components/MarkdownRenderer.tsx:17-21 | with no closing fence nothing is extracted and the text is unchanged, an unterminated fence included |
| CodeFences.ExtractCodeBlocks | components/MarkdownRenderer.tsx:16-21 | the loop returns the text with block n replaced by `__CODE_BLOCK_n__`, and the blocks in encounter order |
| CodeFences.LanguageMeans | components/MarkdownRenderer.tsx:218-219 | a block has a language exactly when a non-empty run of word characters follows the opening fence and a newline ends it |
| CodeFences.RenderFencedBlock | components/MarkdownRenderer.tsx:218-220 | a block is rendered as `<pre class="notion-code">`, with `data-language` only when there is a language, around the trimmed body |
| CodeFences.ReplaceFirstJs | components/MarkdownRenderer.tsx:222 | only the first occurrence of the placeholder is replaced, with the JavaScript `$` patterns of the replacement expanded; without an occurrence the text is unchanged |
| CodeFences.ReplaceFirstJsLiteral | components/MarkdownRenderer.tsx:222 | a replacement without `$` is inserted literally |
| CodeFences.Substitute | components/MarkdownRenderer.tsx:222 | JavaScript's expansion of `$$`, `$&`, `` $` `` and `$'` in a replacement string; a replacement without `$` is kept as it is. CodeFences.SubstituteCopiesPrefix and CodeFences.DoubleDollarCollapses state the expansion further |
| CodeFences.SubstituteCopiesPrefix | components/MarkdownRenderer.tsx:222 | a part of the replacement without `$` in front of the rest is copied unchanged |
| CodeFences.DoubleDollarCollapses | components/MarkdownRenderer.tsx:222 | a replacement whose only dollar signs are one `$$` comes out with one `$` in its place and everything else unchanged |
| CodeFences.RestoreCodeBlocks | components/MarkdownRenderer.tsx:217-223 | the loop puts block i back at the first occurrence of its placeholder, in index order |
| Renderer.BlankRendersEmpty | components/MarkdownRenderer.tsx:12-248 | content of whitespace without a newline is not empty, yet renders as `""`: its one block trims to nothing |
| Renderer.PlaceholderUntouched | components/MarkdownRenderer.tsx:24-212 | a text that is exactly one placeholder goes through escaping, the rewriting passes, the table pass and the list pass unchanged |
| Renderer.CodeBlockComesOutRaw | components/MarkdownRenderer.tsx:12-248 | content that is one fenced block with a language renders as exactly the `pre` element of its trimmed body, unescaped, when the body has no backtick, `$`, `!` or blank line |
| Escape.EscapeIsPerCharacter | components/MarkdownRenderer.tsx:24-27 | the three chained replacements equal escaping each character on its own, so `<` becomes `&lt;` and never `&amp;lt;` |
| Escape.EscapeHtmlChar | components/MarkdownRenderer.tsx:24-27 | on one character the chain gives that character's entity |
| Escape.EscapeHtmlAppend | components/MarkdownRenderer.tsx:24-27 | escaping a concatenation is the concatenation of the escapes |
| Escape.EscapedHasNoAngles | components/MarkdownRenderer.tsx:24-27 | escaped text contains no `<` and no `>` |
| Escape.UnescapeEscape | components/MarkdownRenderer.tsx:24-27 | decoding the three entities gives the original text back |
| BlockPasses.HeadingAt | components/MarkdownRenderer.tsx:30-35 | level n matches exactly at a line start holding n `#` and a space; the heading text runs to the end of the line |
| BlockPasses.HrAt | components/MarkdownRenderer.tsx:62 | matches exactly a whole line of three or more hyphens, replaced by `<hr class="notion-hr">` |
| BlockPasses.CalloutAt | components/MarkdownRenderer.tsx:65-68 | matches exactly at a `>` followed by optional whitespace and the marker; the body runs to the first blank line or the end of the text |
| BlockPasses.QuoteAt | components/MarkdownRenderer.tsx:71 | matches exactly at a line start holding `>`; the maximal whitespace run after it is dropped, and the text from there to the first line terminator or the end is quoted |
| BlockPasses.QuotesIdentity | components/MarkdownRenderer.tsx:71 | where no line starts with `>` the quote pass changes nothing |
| BlockPasses.HeadingsKeepQuotesOut | components/MarkdownRenderer.tsx:30-35 | headings put no `>` at the start of a line |
| BlockPasses.RulesKeepQuotesOut | components/MarkdownRenderer.tsx:62 | the rule pass puts no `>` at the start of a line |
| BlockPasses.CalloutsKeepQuotesOut | components/MarkdownRenderer.tsx:65-68 | the callout passes put no `>` at the start of a line |
| Inline.Delimited | components/MarkdownRenderer.tsx:41-50 | `open(.*?)close` matches exactly when the closing delimiter follows on the same line, and ends at the first one |
| Inline.InlineCodeAt | components/MarkdownRenderer.tsx:53 | matches a backtick, a non-empty run without backticks and the next backtick |
| Inline.LinkAt | components/MarkdownRenderer.tsx:56-57 | matches exactly `[label](url)` with non-empty label and URL; every link carries `target="_blank" rel="noopener noreferrer"` |
| Inline.BoldOnce | components/MarkdownRenderer.tsx:44 | a text with one bold run gets exactly that run wrapped in `<strong class="notion-bold">` |
| Inline.ItalicOnce | components/MarkdownRenderer.tsx:47 | a text with two stars on one line gets exactly the text between them wrapped in `<em class="notion-italic">` |
| Inline.InlineNested | components/MarkdownRenderer.tsx:41-57 | `**p *q* r**` becomes a `strong` holding an `em`: bold runs before italic |
| Inline.BoldBeforeItalic | components/MarkdownRenderer.tsx:41-57 | `**a *b* c**` gives `<strong …>a <em …>b</em> c</strong>` |
| Inline.InlinePassesKeepQuotesOut | components/MarkdownRenderer.tsx:41-57 | the inline passes put no `>` at the start of a line |
| Tables.Substring | components/MarkdownRenderer.tsx:98 | `substring` within the bounds is the slice, and never longer than the string |
| Tables.SingleBarCells | components/MarkdownRenderer.tsx:98 | a line holding a single bar gives two empty cells |
| Tables.HeaderRuleRange | components/MarkdownRenderer.tsx:103 | a bar, three hyphens and a bar form a header rule; the same line with spaces and two columns does not, because the range from `:` to the bar leaves out `-` |
| Tables.TableStage | components/MarkdownRenderer.tsx:76-135 | the loop returns exactly the block description: each run of bar lines that starts at a row becomes one table line |
| Tables.ClosedIsBlocks | components/MarkdownRenderer.tsx:81-135 | the state machine outside a table agrees with the block description |
| Tables.OpenIsBlocks | components/MarkdownRenderer.tsx:81-135 | inside a table the machine emits the gathered table plus the rows of the run, then goes on by blocks |
| Tables.NoBarsUnchanged | components/MarkdownRenderer.tsx:81-129 | lines none of which start with a bar pass unchanged |
| Tables.BlocksNoLonger | components/MarkdownRenderer.tsx:76-135 | the pass never produces more lines than it is given |
| Lists.BulletItemMatches | components/MarkdownRenderer.tsx:155-158 | the bullet pattern matches exactly the bullet-shaped lines and captures depth (indentation / 2) and text |
| Lists.NumberedItemMatches | components/MarkdownRenderer.tsx:176-179 | the numbered pattern matches exactly the numbered-shaped lines and captures depth and text |
| Lists.ListStage | components/MarkdownRenderer.tsx:142-212 | the loop returns exactly the group description of the lines |
| Lists.IdleIsGroups | components/MarkdownRenderer.tsx:151-212 | the state machine agrees with the group description: a group followed by another list line becomes a lone closing tag, any other group a whole list |
| Lists.SameGroupJoins | components/MarkdownRenderer.tsx:155-211 | two items of one kind and depth become one list holding both |
| Lists.KindChangeDropsItems | components/MarkdownRenderer.tsx:160-186 | on a change of kind or depth the first item is lost and only its closing tag is emitted |
| Lists.NoItemsUnchanged | components/MarkdownRenderer.tsx:151-206 | lines none of which is a list item pass unchanged |
| Paragraphs.BlankAt | components/MarkdownRenderer.tsx:228 | `/\n\s*\n/` matches at q exactly when a newline, whitespace and a newline start there; the match ends after the last newline of that whitespace run |
| Paragraphs.SplitFrom | components/MarkdownRenderer.tsx:228 | the split gives at least one piece, and no piece holds a blank line; Paragraphs.SplitReassembles states that the pieces and separators give the text back |
| Paragraphs.SplitReassembles | components/MarkdownRenderer.tsx:228 | the split at blank lines loses only the separators, each a newline, whitespace and a newline |
| Paragraphs.NoBlankOneBlock | components/MarkdownRenderer.tsx:228 | a text without a blank line is one block |
| Paragraphs.FormatBlock | components/MarkdownRenderer.tsx:232-241 | a block is empty exactly when its trimmed text is; a tag block is kept trimmed; any other block becomes a `notion-paragraph` holding its trimmed lines joined by `<br>` |
| Paragraphs.OneBlockParagraphs | components/MarkdownRenderer.tsx:228-242 | on a text without a blank line the pass formats the text as one block |
| Images.ImageAt | components/MarkdownRenderer.tsx:245-246 | matches exactly `![alt](url)` with a non-empty URL and yields the figure with alt as caption |
| Images.ImageWithAltIsLink | components/MarkdownRenderer.tsx:245 | the inner `[alt](url)` of an image with a non-empty alt is already a link for the link pass |
| Images.LoneImage | components/MarkdownRenderer.tsx:245-246 | `![](url)` becomes a figure with an empty alt |
| Images.NoBangUnchanged | components/MarkdownRenderer.tsx:245-246 | text without `!` passes unchanged |
| Text.TrimIsSlice | components/MarkdownRenderer.tsx:82 | `trim` keeps a slice and drops only whitespace on both sides |
| Text.Split | components/MarkdownRenderer.tsx:78 | `split('\n')` gives lines without `\n` whose join is the text |
| Text.SplitJoin | components/MarkdownRenderer.tsx:137-148 | splitting the joined lines gives the lines back |
| Text.ReplaceAllCharIsSplitJoin | components/MarkdownRenderer.tsx:241 | replacing `\n` globally is splitting at it and joining with `<br>` |
| NotionProps.GetPageProperties | lib/notion.ts:23-72 | the loop returns the normalised record, whose keys are exactly the property names |
| NotionProps.PropertiesKeys | lib/notion.ts:26 | the record has exactly the keys of the entries |
| NotionProps.PropertiesLast | lib/notion.ts:26-69 | a key holds the normalised value of its last entry, whatever the other keys hold |
| NotionProps.PropertiesOfObject | lib/notion.ts:26-69 | with distinct keys every key holds the normalised value of its own property |
| NotionProps.Normalize | lib/notion.ts:28-67 | the text-like types give a string, `multi_select` a list, `checkbox` a flag and `number` a number; NotionProps.NormalizeNull, TextOfFirstFragment, FileUrlChoice and MissingDefaults state the values |
| NotionProps.NormalizeNull | lib/notion.ts:63-67 | a value is `null` exactly for an unknown type or an access that throws |
| NotionProps.TextOfFirstFragment | lib/notion.ts:29-34 | `title` and `rich_text` give the first fragment's text, `""` for an empty list |
| NotionProps.FileUrlChoice | lib/notion.ts:44-50 | the first file's own URL, else its external URL, else `""`; no files give `""` |
| NotionProps.MissingDefaults | lib/notion.ts:35-62 | missing date, select, url and email give `""`, checkbox `false`, number `0` |
| NotionProps.FirstTruthy | lib/notion.ts:91-102 | a chain of `or` fallbacks gives the first truthy value, else the default |
| NotionProps.FirstKeyWins | lib/notion.ts:290-295 | a truthy first name wins the chain |
| NotionProps.ProjectOf | lib/notion.ts:91-102 | the project record without its slug; its fields are stated by NotionProps.ProjectNeverBlank, ProjectLiveUrl and ProjectTitleFromPage |
| NotionProps.ProjectNeverBlank | lib/notion.ts:93-98 | a project always has a truthy title, image, tags and category |
| NotionProps.ProjectLiveUrl | lib/notion.ts:100 | the live URL is the first truthy of its three spellings, else `""` |
| NotionProps.ProjectTitleFromPage | lib/notion.ts:23-93 | a page whose `Title` property has non-empty first text gets that text as project title |
| NotionProps.WorkExperienceOf | lib/notion.ts:286-327 | the work-experience record; its fields are stated by NotionProps.PositionTitle and OngoingWithoutEndDate |
| NotionProps.PositionTitle | lib/notion.ts:290-295 | the position title is truthy, is the first truthy spelling, and is `Unnamed Position` when none is |
| NotionProps.OngoingWithoutEndDate | lib/notion.ts:322 | without an end date the end date is `Presente` |
| NotionProps.EducationOf | lib/notion.ts:350-357 | the education record; NotionProps.EducationDefaults states its fields without properties |
| NotionProps.EducationDefaults | lib/notion.ts:350-357 | with no properties each education field is `""` |
| NotionProps.CertificationOf | lib/notion.ts:380-389 | the certification record; NotionProps.CertificationNeverBlank states that its name and tags are always truthy |
| NotionProps.CertificationNeverBlank | lib/notion.ts:382-387 | a certification always has a truthy name and tags |

## Left out

- The React component `MarkdownRenderer` (components/MarkdownRenderer.tsx:251-269) is UI. Its catch to `<p>Error displaying content</p>` only guards against a JavaScript exception; the modelled function is total.
- No general regular-expression engine is modelled. Each pattern of the renderer has its own matcher, and nothing is claimed about other patterns.
- `content` is a string. `null` and `undefined` content are represented by the empty string, which `!content` treats the same way.
- JavaScript strings are UTF-16. The model works on `char` sequences and does not model surrogate pairs.
- The `slug` field of a project (lib/notion.ts:94) comes from the `slugify` library, which is not part of this model. `ProjectOf` omits it.
- The fetch functions themselves (`getProjects`, `getWorkExperience`, `getEducation`, `getCertifications`) are network calls through the Notion SDK. Their error handling and `console.error` logging are left out. Only the record each one builds from a page's properties is modelled, with the page id as a parameter.
- A `number` is modelled as an unbounded integer. Floating-point values and `NaN`, which `|| 0` also maps to `0`, are not modelled.
- A `multi_select` option without a `name` would put `undefined` into the list. The model keeps only names that exist.
- A property value that is not an object, or that has an unknown type tag, is folded into `Other`. Its `null` result agrees with the source either way.
- Property values carry only the fields the code reads. In the source a `title` or `rich_text` list may be missing and make the access throw. The model reflects this with `Option`.
- Inline.BoldOnce: states the bold pass only for a text with a single bold run. Texts with several runs are covered by the generic `Rewrite.Replace` definition, not by a closed form.
- Inline.ItalicOnce: states the italic pass only for a text with exactly two stars.
- Tables.BlocksNoLonger: bounds the number of lines only. The exact output is given by Tables.TableStage.
- Paragraphs.OneBlockParagraphs: states the closed form only for a text without a blank line. Other texts are covered by the definition through `SplitBlank` and Paragraphs.SplitReassembles.
