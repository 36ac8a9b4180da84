# Portfolio site: the sequential logic behind its animations

The portfolio site is mostly layout and animation. Six places in it hold
real logic, and this project models each one in Dafny and proves what it
does:

- **Syntax highlighter** (`highlightSyntax` in `AnimatedCodeBlock`). It splits
  a code sample into lines. It then consumes each line left to right with an
  ordered list of token recognisers: comment, string literal, template
  expression, keyword, type name, number, operator, bracket, called function
  name, and one plain character as the fallback. Each recogniser is a regular
  expression in the component. Here each one is a matching function with its
  own contract.
- **Typewriter player** (same component). A timer tick reveals a growing
  prefix of a fixed code text, 1 or 2 characters at a time, and marks the run
  complete at the end. Play/pause, replay and reset controls act on the same
  state. The status line shows a percentage, the line and column numbers and
  a gutter of line numbers, all derived from the typed text.
- **Project carousel** (`AppShowcase`). It keeps a cyclic slide index, a
  direction flag for the transition, and a touch-swipe classifier with a
  50-pixel threshold.
- **Intro countdown** (`IntroSequence`). It counts down 5, 4, 3, 2, 1, "GO",
  then starts exiting and schedules the completion callback. A skip button
  starts the exit at once.
- **Career timeline** (`AboutTimeline`). Scroll progress picks the
  highlighted entry as `min(floor(p·n), n−1)`. Dragging along the timeline bar
  clamps the pointer position to [0,1] and scrolls the page to the matching
  point of the section. The active card and the globe marker follow the
  index.
- **Orbit path builder** (`createOrbitPath` in `AnimatedWires`). It builds
  the SVG commands that take a wire once around a node: a line to the
  rightmost point of the circle, then two half-circle arcs per loop. The
  commands are joined with single spaces.

Modules:
- `Wrappers` holds `Option`.
- `Numerals` holds decimal text for integers, as JavaScript template
  literals print integral numbers of moderate size (below 10^21 and
  exactly representable as doubles).
- `Lines` holds JavaScript's `split` and `join` on a single character.
- `SyntaxHighlight`, `Typewriter`, `Carousel`, `IntroCountdown`,
  `AboutTimeline` and `OrbitPath` hold the six pieces above.

Each piece keeps the form of its source. The tokenizer loop is a `while`
loop, proved equal to a recursive specification of the token sequence. The
orbit builder is a loop that appends to a list of strings. Component state
that handlers update (the player, the carousel, the countdown, the timeline)
is a class whose methods change its fields. Derived values (progress, column,
active index, scrub target) are functions.

The 1-or-2 random step of the typewriter (`Math.floor(Math.random() * 2) + 1`)
is a parameter restricted to 1 or 2. A code comment next to it speaks of 1–3
characters; the model follows the code. Timer delays (the start delay, the
typing interval, the one-second countdown, the 800 ms exit delay) are not
modelled: each timer firing is one method call. The typewriter's fixed text
(`automationCode`) is the `code` argument of the `CodePlayer` constructor, the
number of showcased apps is the `count` argument of the `Carousel`
constructor (3 at the call site), and the number of experience entries (9) is
`AboutTimeline.ExperienceCount` (used by
`AboutTimeline.ExperienceEnds`).

## Model

| member | source | states |
|---|---|---|
| Lines.Split | src/components/AnimatedCodeBlock.tsx:151 | `split` on one character always yields at least one piece (its content is fixed by `JoinSplit`, `SplitSeparatorFree` and `SplitJoin`) |
| Lines.Join | src/components/AnimatedWires.tsx:209 | the join of no pieces is empty; otherwise it starts with the first piece and is as long as all pieces plus one separator between each two |
| Lines.SplitCount | src/components/AnimatedCodeBlock.tsx:151 | `split` on a character yields one more piece than there are separators |
| Lines.SplitSeparatorFree | src/components/AnimatedCodeBlock.tsx:320 | no piece of a split contains the separator |
| Lines.JoinSplit | src/components/AnimatedCodeBlock.tsx:151-153 | joining the pieces of a split with the same separator gives back the text |
| Lines.SplitJoin | src/components/AnimatedWires.tsx:209 | splitting a join of separator-free pieces (at least one) gives back the pieces |
| Lines.LastPiece | src/components/AnimatedCodeBlock.tsx:526 | the last piece of a split is a separator-free suffix, either the whole text or preceded by a separator |
| Lines.SplitSingle | src/components/AnimatedWires.tsx:209 | a separator-free text splits into itself alone |
| Lines.JoinSnoc | src/components/AnimatedWires.tsx:209 | appending one piece adds one separator and the piece to the join |
| Lines.JoinAppend | src/components/AnimatedWires.tsx:209 | joining two non-empty lists back to back puts exactly one separator between them |
| Numerals.NatToString | src/components/AnimatedWires.tsx:201 | decimal text of a natural number is non-empty, all digits, no leading zero, and starts with 0 only for zero itself |
| Numerals.NatToStringValue | src/components/AnimatedWires.tsx:201 | the digits read back as the number |
| Numerals.IntToString | src/components/AnimatedWires.tsx:201-206 | the text `${x}` prints: canonical decimal digits with no leading zero (zero is "0"), after a minus sign exactly when negative, with no space; its value is fixed by `IntToStringRoundTrip` |
| Numerals.IntToStringRoundTrip | src/components/AnimatedWires.tsx:201-206 | the decimal text of any integer (with a minus sign if negative) parses back to it |
| Numerals.IntToStringInjective | src/components/AnimatedWires.tsx:201-206 | different integers print differently |
| SyntaxHighlight.Highlight | src/components/AnimatedCodeBlock.tsx:151-153 | one row per `'\n'`-separated line (newlines + 1 rows), row i is the token sequence of line i, and the rows' texts joined with `'\n'` are the code |
| SyntaxHighlight.RowTextsAreLines | src/components/AnimatedCodeBlock.tsx:153 | a row built from each line shows that line |
| SyntaxHighlight.TokenizeLine | src/components/AnimatedCodeBlock.tsx:154-282 | the `while` loop over `remaining` pushes exactly the token sequence of the specification, one recogniser branch per iteration |
| SyntaxHighlight.LineTokens | src/components/AnimatedCodeBlock.tsx:154-282 | the token sequence of a line as a specification: the first token, then (unless it is a comment) the tokens of what it leaves; its properties are the lemmas below |
| SyntaxHighlight.NextToken | src/components/AnimatedCodeBlock.tsx:159-281 | each step emits a non-empty prefix of what remains (so the loop ends); it is a comment exactly when the rest starts with `//`, and a comment covers the rest |
| SyntaxHighlight.Recognise | src/components/AnimatedCodeBlock.tsx:159-281 | one pass of the loop body, trying the recognisers in the source's order, produces exactly the specification's next token |
| SyntaxHighlight.TokensAfter | src/components/AnimatedCodeBlock.tsx:159-282 | a non-empty token is emitted; after a comment the line has no more tokens, otherwise tokenizing continues just after the token |
| SyntaxHighlight.WordToken | src/components/AnimatedCodeBlock.tsx:197-218 | a keyword or type token is the matched word, a non-empty prefix of the rest |
| SyntaxHighlight.SymbolToken | src/components/AnimatedCodeBlock.tsx:223-281 | the later recognisers in order: a number exactly when a digit comes first, taking the whole digit run; otherwise the longest operator present; otherwise one bracket character; otherwise the whole called identifier (followed by optional white space and `(`); otherwise one plain character, only when no earlier recogniser applies |
| SyntaxHighlight.LineTokensWellSplit | src/components/AnimatedCodeBlock.tsx:154-282 | the tokens of a line cut it into non-empty consecutive prefixes, a comment taking the whole rest |
| SyntaxHighlight.LineTokensStep | src/components/AnimatedCodeBlock.tsx:159-282 | the first token of a non-empty line is a non-empty prefix, and the remaining tokens are those of the text after it unless it is a comment |
| SyntaxHighlight.KeywordTokenMatch | src/components/AnimatedCodeBlock.tsx:161-207 | a keyword token is what the keyword regular expression matches |
| SyntaxHighlight.Coverage | src/components/AnimatedCodeBlock.tsx:159-281 | the token texts of a line, concatenated in order, are the line |
| SyntaxHighlight.TokensNonEmpty | src/components/AnimatedCodeBlock.tsx:159-281 | no token is empty; only an empty line has no tokens (the placeholder row) |
| SyntaxHighlight.CommentIsLast | src/components/AnimatedCodeBlock.tsx:161-168 | a comment token can only be the last token of its line |
| SyntaxHighlight.TokensFromBoundary | src/components/AnimatedCodeBlock.tsx:159-282 | the tokens after any token boundary are the tokens of the rest of the line |
| SyntaxHighlight.Offset | src/components/AnimatedCodeBlock.tsx:156 | the position of a token boundary is within the line and tokenizing resumes there |
| SyntaxHighlight.CommentAtBoundary | src/components/AnimatedCodeBlock.tsx:161-168 | `//` at a token boundary gives one comment token covering the rest of the line, and it is the last token |
| SyntaxHighlight.QuotedEnd | src/components/AnimatedCodeBlock.tsx:171 | the scan of a quoted body ends just after a closing quote; `QuotedEndSound` and `QuotedEndComplete` tie it to the body grammar, escapes included |
| SyntaxHighlight.StringLiteral | src/components/AnimatedCodeBlock.tsx:171 | a string literal match starts with a quote, ends with the same quote and has at least two characters |
| SyntaxHighlight.StringLiteralMatch | src/components/AnimatedCodeBlock.tsx:171 | the recogniser returns length n exactly when `s[..n]` is a quote, a body of plain characters and backslash escapes, and the same quote; it fails exactly when the pattern has no match |
| SyntaxHighlight.QuotedEndSound | src/components/AnimatedCodeBlock.tsx:171 | what the scan skips before the closing quote is a literal body: plain characters other than the quote and backslash, and backslash escapes of any non-line-terminator |
| SyntaxHighlight.QuotedEndComplete | src/components/AnimatedCodeBlock.tsx:171 | a literal body followed by the quote is exactly where the scan stops |
| SyntaxHighlight.EscapedQuoteLiteral | src/components/AnimatedCodeBlock.tsx:171 | an escaped quote does not close the literal: quote, backslash, quote, quote is one literal of length 4 |
| SyntaxHighlight.DanglingEscapeLiteral | src/components/AnimatedCodeBlock.tsx:171 | a backslash before the end of the line (or before the only other quote) leaves the literal unclosed |
| SyntaxHighlight.PlainStringLiteral | src/components/AnimatedCodeBlock.tsx:171 | a literal whose body has neither its quote nor a backslash ends at the next occurrence of its quote |
| SyntaxHighlight.StringBeforeKeyword | src/components/AnimatedCodeBlock.tsx:171-181 | when a string literal starts the rest, the next token is that whole literal, before any keyword, type or operator is tried |
| SyntaxHighlight.KeywordInsideString | src/components/AnimatedCodeBlock.tsx:171-207 | a quoted word, keyword or not, is a single string token |
| SyntaxHighlight.TemplateExpr | src/components/AnimatedCodeBlock.tsx:184 | a template match is `${`, at least one non-`}` character, and the first `}`; it fails exactly when there is no such `}` |
| SyntaxHighlight.FirstAlternative | src/components/AnimatedCodeBlock.tsx:197 | an ordered alternation picks the first alternative that matches, and none before it matches |
| SyntaxHighlight.MatchWord | src/components/AnimatedCodeBlock.tsx:197-220 | a word list followed by `\b` matches a listed word followed by a non-word character or the end, and fails only when no listed word does |
| SyntaxHighlight.WordAtUnique | src/components/AnimatedCodeBlock.tsx:197 | at most one word can match at a position with a trailing `\b`, so the alternation order does not matter |
| SyntaxHighlight.UniqueWordMatch | src/components/AnimatedCodeBlock.tsx:197-220 | the word recogniser returns the one listed word present with a boundary |
| SyntaxHighlight.KeywordsAreWords | src/components/AnimatedCodeBlock.tsx:197 | every keyword is a word that starts like a name |
| SyntaxHighlight.TypeNamesAreWords | src/components/AnimatedCodeBlock.tsx:210 | every type name is a word that starts like a name |
| SyntaxHighlight.TypeNamesAreNotKeywords | src/components/AnimatedCodeBlock.tsx:197-210 | no type name is also a keyword |
| SyntaxHighlight.KeywordHasBoundary | src/components/AnimatedCodeBlock.tsx:197-207 | a keyword token is a listed keyword followed by a non-word character or the end of the line |
| SyntaxHighlight.KeywordRecognised | src/components/AnimatedCodeBlock.tsx:197-207 | a keyword followed by a non-word character or the end is emitted as one keyword token |
| SyntaxHighlight.TypeNameRecognised | src/components/AnimatedCodeBlock.tsx:210-220 | a type name followed by a non-word character or the end is emitted as one type token |
| SyntaxHighlight.NumberRecognised | src/components/AnimatedCodeBlock.tsx:223-232 | a digit at a token boundary starts a number token holding the whole run of digits |
| SyntaxHighlight.TemplateRecognised | src/components/AnimatedCodeBlock.tsx:184-194 | a template expression at a token boundary is one template token running to the first closing brace |
| SyntaxHighlight.CallRecognised | src/components/AnimatedCodeBlock.tsx:262-271 | a name that is not a keyword or type name, followed by optional white space and `(`, is one call token holding the whole name |
| SyntaxHighlight.NameIsNoSymbol | src/components/AnimatedCodeBlock.tsx:161-259 | text that starts like a name is no comment, string literal, template expression, number, operator or bracket |
| SyntaxHighlight.NameNotListed | src/components/AnimatedCodeBlock.tsx:197-220 | a whole identifier that is neither a keyword nor a type name matches neither word list |
| SyntaxHighlight.CallNameIsName | src/components/AnimatedCodeBlock.tsx:262 | the called-name match is the whole identifier |
| SyntaxHighlight.WordStartsName | src/components/AnimatedCodeBlock.tsx:161-194 | text that starts like a name is not a comment, string literal or template expression |
| SyntaxHighlight.NoKeywordAt | src/components/AnimatedCodeBlock.tsx:197-210 | where a type name matches, no keyword matches |
| SyntaxHighlight.NoWordMatch | src/components/AnimatedCodeBlock.tsx:197-220 | text not starting like a name matches no word list |
| SyntaxHighlight.NoKeywordOrTypeName | src/components/AnimatedCodeBlock.tsx:197-220 | text not starting like a name matches neither keywords nor type names |
| SyntaxHighlight.NoKeyword | src/components/AnimatedCodeBlock.tsx:197 | text not starting like a name matches no keyword |
| SyntaxHighlight.NoTypeName | src/components/AnimatedCodeBlock.tsx:210 | text not starting like a name matches no type name |
| SyntaxHighlight.FirstTokenIsNext | src/components/AnimatedCodeBlock.tsx:159 | the first token of a non-empty line is the first recogniser's result |
| SyntaxHighlight.OperatorLength | src/components/AnimatedCodeBlock.tsx:236 | the operator match is an operator prefix, and fails only when no operator starts the text |
| SyntaxHighlight.OperatorLongestMatch | src/components/AnimatedCodeBlock.tsx:236 | the operator recogniser takes the longest operator present (maximal munch) |
| SyntaxHighlight.OperatorLongest | src/components/AnimatedCodeBlock.tsx:236 | no operator present at the start is longer than the one recognised |
| SyntaxHighlight.StrictEqualityIsOneToken | src/components/AnimatedCodeBlock.tsx:236-246 | `===` is one operator token, not `==` then `=` |
| SyntaxHighlight.OperatorStartsNoName | src/components/AnimatedCodeBlock.tsx:161-233 | text starting with an operator character (other than `/`) is no comment, literal, template, keyword, type or number |
| SyntaxHighlight.CallName | src/components/AnimatedCodeBlock.tsx:262 | a call match is an identifier, not followed by a word character, then optional white space and `(`; it fails only when no identifier prefix opens a call |
| SyntaxHighlight.NoCallAfterName | src/components/AnimatedCodeBlock.tsx:262 | when the longest identifier is not followed by white space and `(`, no shorter identifier prefix is either |
| Typewriter.Progress | src/components/AnimatedCodeBlock.tsx:315-316 | progress is exactly 100·typed/total: it lies in [0,100], is 0 exactly when nothing is typed and 100 exactly when everything is |
| Typewriter.ProgressMonotone | src/components/AnimatedCodeBlock.tsx:316 | typing more never lowers the progress |
| Typewriter.LineCount | src/components/AnimatedCodeBlock.tsx:319-322 | the line indicator (and line count) is the number of newlines + 1 |
| Typewriter.Column | src/components/AnimatedCodeBlock.tsx:526 | the column is one more than the number of characters after the last newline |
| Typewriter.LineNumbers | src/components/AnimatedCodeBlock.tsx:394-395 | the gutter holds exactly 1..line count, strictly increasing |
| Typewriter.CodePlayer.constructor | src/components/AnimatedCodeBlock.tsx:307-309 | starts with nothing typed, not complete, playing when auto-play is on |
| Typewriter.CodePlayer.Tick | src/components/AnimatedCodeBlock.tsx:342-355 | a tick comes only while playing; at the end the text is unchanged, the run complete and stopped; otherwise the typed text becomes the text's prefix of length min(typed + step, total) |
| Typewriter.CodePlayer.PlayPause | src/components/AnimatedCodeBlock.tsx:370-379 | from a complete run: empty text, not complete, playing; otherwise only `isPlaying` flips |
| Typewriter.CodePlayer.Reset | src/components/AnimatedCodeBlock.tsx:381-385 | empty text, not complete, not playing |
| Typewriter.CodePlayer.CurrentProgress | src/components/AnimatedCodeBlock.tsx:316 | progress of the current state is in [0,100], and 100 once complete |
| Carousel.Next | src/components/AppShowcase.tsx:370 | the next index stays in [0,n): one up, or from the last back to 0 |
| Carousel.Prev | src/components/AppShowcase.tsx:375 | the previous index stays in [0,n): one down, or from 0 to the last |
| Carousel.PrevUndoesNext | src/components/AppShowcase.tsx:370-375 | "previous" after "next" restores the index |
| Carousel.NextUndoesPrev | src/components/AppShowcase.tsx:370-375 | "next" after "previous" restores the index |
| Carousel.NextTimesWithinCycle | src/components/AppShowcase.tsx:370 | k ≤ n presses of "next" move k places forward, wrapping at most once |
| Carousel.FullCycle | src/components/AppShowcase.tsx:370 | n presses of "next" return to the starting slide |
| Carousel.GoDirection | src/components/AppShowcase.tsx:379 | the direction is 1 exactly when the target index is higher, otherwise −1 (also for the current slide) |
| Carousel.SwipeOf | src/components/AppShowcase.tsx:393-404 | with both coordinates truthy, a drag over 50 advances and one under −50 goes back; a null or 0 coordinate, or a shorter drag, does nothing |
| Carousel.SwipeSymmetric | src/components/AppShowcase.tsx:395-397 | swapping start and end swaps advancing and going back |
| Carousel.ShortOrMissingSwipeStays | src/components/AppShowcase.tsx:394-397 | a missing coordinate or a drag of at most 50 either way changes nothing |
| Carousel.Carousel.constructor | src/components/AppShowcase.tsx:360-363 | index 0, direction 0, no touch recorded |
| Carousel.Carousel.NextSlide | src/components/AppShowcase.tsx:368-371 | direction 1, index advanced cyclically, touch state kept |
| Carousel.Carousel.PrevSlide | src/components/AppShowcase.tsx:373-376 | direction −1, index moved back cyclically, touch state kept |
| Carousel.Carousel.GoToSlide | src/components/AppShowcase.tsx:378-381 | index set to the target; direction 1 iff the target is higher than the old index |
| Carousel.Carousel.OnTouchStart | src/components/AppShowcase.tsx:384-387 | the end coordinate is cleared and the start recorded; the slide is unchanged |
| Carousel.Carousel.OnTouchMove | src/components/AppShowcase.tsx:389-391 | only the end coordinate changes |
| Carousel.Carousel.OnTouchEnd | src/components/AppShowcase.tsx:393-404 | performs "next", "previous" or nothing as the swipe classification says |
| Carousel.Tap | src/components/AppShowcase.tsx:384-394 | a touch start straight followed by a touch end never changes the slide or direction |
| IntroCountdown.Label | src/components/IntroSequence.tsx:88 | the label is "GO" exactly at 0, otherwise the decimal digits of the count |
| IntroCountdown.Countdown.constructor | src/components/IntroSequence.tsx:12-13 | the count starts at 5, not exiting |
| IntroCountdown.Countdown.HandleComplete | src/components/IntroSequence.tsx:15-18 | sets exiting and schedules the callback once more, whatever the count |
| IntroCountdown.Countdown.Step | src/components/IntroSequence.tsx:20-29 | while positive and not exiting the count drops by exactly 1; at 0 the intro starts exiting with one completion; once exiting nothing changes; the count stays in 0..5 |
| IntroCountdown.Countdown.Skip | src/components/IntroSequence.tsx:96 | exiting is latched at any count, the count unchanged |
| IntroCountdown.RunWithoutSkip | src/components/IntroSequence.tsx:12-29 | left alone the labels are 5, 4, 3, 2, 1, GO, and then the exit starts with one completion |
| AboutTimeline.ActiveIndex | src/components/AboutTimeline.tsx:28-31 | the index is at most n−1; not negative when p ≥ 0; below n−1 it is the band with i ≤ p·n < i+1 |
| AboutTimeline.ActiveIndexInRange | src/components/AboutTimeline.tsx:28-31 | for p in [0,1] the index lies in [0,n−1], and p = 1 gives n−1 |
| AboutTimeline.ActiveIndexBand | src/components/AboutTimeline.tsx:28-31 | entry k is active exactly on its band of progress |
| AboutTimeline.ActiveIndexMonotone | src/components/AboutTimeline.tsx:28-31 | the index never decreases as the progress grows |
| AboutTimeline.ExperienceEnds | src/components/AboutTimeline.tsx:28-31 | with the nine experiences, progress 0 highlights the first and progress 1 the last |
| AboutTimeline.ScrubProgress | src/components/AboutTimeline.tsx:39-40 | the scrub progress is in [0,1], 0 above the bar, 1 below it, linear in between |
| AboutTimeline.ScrubTarget | src/components/AboutTimeline.tsx:42-47 | the target lies `progress` times the scroll distance (section height less window height) below `sectionTop`: `sectionTop` at 0, `sectionTop + scrollDistance` at 1, and between them when the distance is not negative |
| AboutTimeline.ScrubMonotone | src/components/AboutTimeline.tsx:35-47 | dragging further down the bar never scrolls the page back up: the requested scroll offset never gets smaller |
| AboutTimeline.ScrubProgressMonotone | src/components/AboutTimeline.tsx:39-40 | a lower pointer never gives a smaller scrub progress |
| AboutTimeline.ScrubTargetMonotone | src/components/AboutTimeline.tsx:42-47 | when the section is at least as tall as the window, a larger progress never gives a smaller scroll target |
| AboutTimeline.CardStates | src/components/AboutTimeline.tsx:145-151 | card i is active exactly when i is the active index |
| AboutTimeline.ExactlyOneActiveCard | src/components/AboutTimeline.tsx:145-151 | exactly one card is active when the index is in range, none otherwise |
| AboutTimeline.MarkerCoordinates | src/components/AboutTimeline.tsx:92 | the marker uses the active entry's coordinates, or (52.52, 13.405) when there is none |
| AboutTimeline.MarkerOnAnEntry | src/components/AboutTimeline.tsx:28-33 | while scrolling through the section the marker is always on an entry; the fallback needs an empty list |
| AboutTimeline.Timeline.constructor | src/components/AboutTimeline.tsx:14 | the active index starts at 0 |
| AboutTimeline.Timeline.OnScrollProgress | src/components/AboutTimeline.tsx:27-33 | the active index becomes the mapping of the new progress |
| AboutTimeline.Timeline.HandleScrub | src/components/AboutTimeline.tsx:35-53 | unmounted: nothing; otherwise the scroll position becomes the scrub target of the clamped progress |
| OrbitPath.Fields | src/components/AnimatedWires.tsx:201-206 | every command has at least one field and no field contains a space |
| OrbitPath.Render | src/components/AnimatedWires.tsx:201-206 | a command's text is its fields joined by single spaces, as the template literals write it |
| OrbitPath.RenderAll | src/components/AnimatedWires.tsx:198-207 | one text per command |
| OrbitPath.Orbit | src/components/AnimatedWires.tsx:198-207 | the commands pushed after a number of rounds: the line in the first round, then two half-circle arcs per round (shape fixed by `OrbitShape`) |
| OrbitPath.CreateOrbitPath | src/components/AnimatedWires.tsx:193-210 | the loop's joined strings are the rendering of the orbit specification |
| OrbitPath.OrbitStep | src/components/AnimatedWires.tsx:198-207 | one round appends the first-round line and two arcs |
| OrbitPath.NoLoopsNoPath | src/components/AnimatedWires.tsx:198-209 | with loops ≤ 0 the path is empty |
| OrbitPath.OrbitShape | src/components/AnimatedWires.tsx:198-207 | with loops ≥ 1: 1 + 2·loops commands, the one line first to (cx+r, cy), then arcs of radius r with flags 0 0 1 alternating between (cx−r, cy) and (cx+r, cy) |
| OrbitPath.EndsWhereItBegan | src/components/AnimatedWires.tsx:200-206 | the path ends at the point where the orbit began |
| OrbitPath.JoinRendered | src/components/AnimatedWires.tsx:209 | joining the command texts with spaces equals joining all their fields with spaces |
| OrbitPath.AllFieldsNonEmpty | src/components/AnimatedWires.tsx:201-206 | the fields of a non-empty command list are non-empty and space-free |
| OrbitPath.PathFields | src/components/AnimatedWires.tsx:209 | splitting the path at spaces gives back exactly the commands' fields: single spaces, none stray |
| OrbitPath.FirstWireOrbit | src/components/AnimatedWires.tsx:219-222 | the first wire's orbit is a line to (512,180), an arc to (488,180) and an arc back |

## Left out

- React rendering: element keys, colour classes, the `&nbsp;` placeholder element, motion components and transitions. The model keeps only each token's kind and text.
- The regular expressions declared at the top of `highlightSyntax` (`keywords`, `types`, `strings`, `comments`, `numbers`, `functions`) are never used by the loop and are not modelled. The block-comment form `/* … */` is therefore not recognised.
- Full JavaScript regular-expression semantics. Each recogniser is a matching function for its one pattern. The string pattern's `(?!\1)[^\\]` alternative is modelled as "any character but the quote or a backslash"; `\s` and `\w` follow JavaScript's character classes.
- String lengths: JavaScript counts UTF-16 code units, and a Dafny `string` counts characters. For text outside the Basic Multilingual Plane, `slice`, `length` and the typing step would differ.
- Timers and scheduling: the start delay, the typing interval, `clearInterval`, the one-second countdown timer and the 800 ms exit delay. The callback itself is counted (`completionsScheduled`), not run.
- Typewriter.CodePlayer.Tick: the random step is a parameter restricted to 1 or 2, not a draw from `Math.random`.
- The `currentLine` effect runs after the render that changed the text. The model computes the line indicator from the typed text directly (`Typewriter.LineCount`), without that one-render lag.
- Clipboard copy (`handleCopy`, the `copied` flag) and the auto-scroll of the code panel: browser I/O.
- `automationCode` is a constructor argument (any non-empty text) rather than the fixed literal.
- AboutTimeline.ScrubProgress and AboutTimeline.Timeline.HandleScrub require a positive bar height. A zero height gives `NaN` or `Infinity` in JavaScript, and reals have no such values.
- Reals replace IEEE doubles wherever the components compute with numbers: the timeline mapping (`AboutTimeline.ActiveIndex`, `AboutTimeline.ScrubProgress`, `AboutTimeline.ScrubTarget`), the typewriter percentage (`Typewriter.Progress`) and the touch coordinates of the carousel (`Carousel.SwipeOf`). Rounding (in `latest * n`, in `displayedCode.length / totalChars * 100`) is not modelled, and neither are `NaN` coordinates: JavaScript treats `NaN` as falsy like `0`, and reals have no such value.
- Numerals.IntToString: prints every integer in plain decimal. JavaScript prints numbers of magnitude 10^21 and more in exponent form (`1e+21`) and cannot represent every integer beyond 2^53; the orbit coordinates at the call sites are a few hundred.
- AboutTimeline.Timeline.HandleScrub: the mounted-refs check is one boolean parameter. The page scroll is the field `scrollTop`, set to the requested target; smooth scrolling and the browser clamping it to the scrollable range are not modelled.
- The spring-smoothed progress, the globe's rotation and tilt, and the globe rendering (three.js, GeoJSON) are animation and graphics.
- OrbitPath.CreateOrbitPath: coordinates and `loops` are integers, as at every call site. The default `loops = 1` is not modelled: `loops` is always passed, as every call site does. A fractional `loops` or a non-integer coordinate (JavaScript number formatting) is not modelled.
- The rest of each wire's path around the orbit (the `M`/`L` commands written out in the literal) is static text and not modelled.
- The network proxy for the contact form, the navigation bar, and static sections: no sequential logic.
