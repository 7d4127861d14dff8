# bloom: the article navigation engine and its state machines, in Dafny

bloom is a terminal feed reader written in Go on top of the bubbletea
runtime. Everything the user sees is one `Model` record. Every key press or
background result is a function from a `Model` to a new `Model` and a
command, a named effect that the runtime performs later.

This project models that core as immutable datatypes and pure functions,
and proves what the code promises:

- **Viewport and cursor engine.**
  - Scrolling by line and by half page (`scroll.go`).
  - Cursor movement in the article view, with the column clamped to the
    display width of the addressed line.
  - `g` and `G`.
- **Link index and hit testing.**
  - The raw-markdown link scanner works in byte offsets with an exclusive
    end.
  - The rendered-text scanner works in display columns with an inclusive
    end.
  - `StripANSI`, which deletes the CSI sequences of ECMA-48 section 5.4.
  - The two hit testers: the strict one used to highlight a link and the
    lenient one used to open or copy it.
- **Cursor-marker insertion.** `InsertCursorAtPosition` walks a styled line,
  copies CSI sequences, and wraps the character at a display column in
  reverse video (SGR 7/27, ECMA-48 section 8.3.117). It handles wide
  characters, undecodable bytes and the end of the line.
- **The screen state machine.**
  - Landing, feed list, article list, article view and feed manager, with
    the add and edit forms.
  - The message handlers and the `Update` dispatcher.
  - Which screen `View` draws, and the landing-page counts.
  - The configuration-list commands.
  - The read-state map.
  - Feed URL normalisation.
  - Conversion of a decoded Atom document into a channel.

Modules follow the source layout:

| module | file | models |
|---|---|---|
| `Common` | common.dfy | Go's `min`/`max`, truncating `/ 2`, UTF-8 byte length, `strings` helpers, `%d` |
| `Text` | text.dfy | `StripANSI`, display width, `InsertCursorAtPosition`, `StripHTML` |
| `LinkScan` | links.dfy | `ParseLinksFromMarkdown`, `ParseLinksFromRenderedContent`, `FindURLInRenderedLine` |
| `Storage` | storage.dfy | `AppState` and `Config`, read marks, `normalizeFeedURL`, `LoadConfig`'s normalisation pass, `DefaultConfig` |
| `Feed` | feed.dfy | channel records, Atom-or-RSS detection, `parseAtom` after decoding |
| `TuiModel` | model.dfy | `Model`, commands, messages, `NewModel`, `getLoadedFeedForConfigIndex` |
| `Scroll` | scroll.dfy | `scrollDown`, `scrollUp`, `scrollPageDown`, `scrollPageUp` |
| `ContentNav` | cursor.dfy | the content-view cursor handlers, `g`, `G` |
| `HitTest` | hittest.dfy | both `findLinkAtPosition` functions |
| `ArticleViewer` | viewer.dfy | window, padding, cursor row and status line of `RenderArticleFullScreen` |
| `FeedForm` | form.dfy | the form's Tab order and tag parsing |
| `Keys` | keys.dfy | `handleKeyMsg` and every key handler |
| `Messages` | messages.dfy | the message handlers |
| `Commands` | commands.dfy | `AddFeedToConfig`, `DeleteFeedFromConfig`, `UpdateFeedInConfig` |
| `TuiUpdate` | update.dfy | `Update`, and round trips through the runtime |
| `ViewSelect` | view.dfy | `View`'s choice of screen and the landing counts |

Strings are sequences of decoded characters. An undecodable byte is
U+FFFD, which is what Go's decoder yields for it. Where the source counts
bytes (`len`, slicing), the model computes the UTF-8 byte length of the
decoded characters. That length is exact for valid UTF-8 only: see
`Common.ByteLen` under "Left out".

Everything the core calls but cannot see becomes a parameter:

- The character width (`runewidth`) is a function into {0, 1, 2}.
- The glamour markdown renderer is `string -> Result<string>`.
- The XML decoders are parameters of `Feed.ReadBody`.
- `url.Parse`'s checks other than the scheme are the predicate `parseFails`.
- `html.UnescapeString` is `unescape`.
- The link highlight style is `style`.
- The clock is `now`.
- What a save returned is `saveErr`.

A command that edits the configuration captures the model's configuration
pointer. `Commands.RunConfigCmd` models the runtime running it: the edited
list is what the handler of its reply sees.

Behaviours of the code worth knowing:

- `StripANSI` is not idempotent (`Text.StripAnsiNotIdempotent`).
- Links found in raw markdown carry byte offsets with an exclusive end,
  not display columns with an inclusive end (`LinkScan.TwiceBracketLink`).
- Scrolling does not re-clamp the cursor column, so the column can pass
  the end of the addressed line (`ContentNav.ScrollLeavesColumnPastLine`).
- Paging down on an empty buffer leaves the scroll offset at -1
  (`Scroll.PageDownOnEmptyBuffer`).
- The link opened or copied need not be the link under the cursor
  (`HitTest.HighlightAndOpenDiffer`).
- Opening an article marks an item read by the position of the selected
  feed among the loaded channels, not by URL
  (`TuiUpdate.ArticleLoadMarksByPosition`).
- On a terminal at most one row high the content height is negative, and
  drawing a non-empty article panics in the slice expression
  (`ArticleViewer.BodyPanicsWhenShort`).

## Model

| member | source | states |
|---|---|---|
| Scroll.ScrollDown | internal/tui/scroll.go:8-18 | Only the offset changes, by +1 exactly when the view is the article view and the offset is below the last line index; it never passes the larger of the old offset and the last index |
| Scroll.ScrollUp | internal/tui/scroll.go:20-29 | Only the offset changes, by -1 exactly when the view is the article view and the offset is positive; it never drops below the smaller of the old offset and 0 |
| Scroll.PageSize | internal/tui/scroll.go:37 | The page is at least 5 lines; for a height of 13 or more it is half the text rows, rounded down |
| Scroll.ScrollPageDown | internal/tui/scroll.go:31-41 | Outside the article view nothing changes; inside it only the offset moves, to at most the last line index and at most one page further |
| Scroll.ScrollPageUp | internal/tui/scroll.go:43-52 | Outside the article view nothing changes; inside it only the offset moves, to at least 0 and at most one page back |
| Scroll.ScrollKeepsOffsetInRange | internal/tui/scroll.go:8-52 | Line scrolling in both directions and paging up keep the offset on a line of the buffer, or at 0 for an empty buffer |
| Scroll.PageDownKeepsOffsetInRange | internal/tui/scroll.go:31-41 | On a non-empty buffer, paging down keeps the offset on a line |
| Scroll.PageDownOnEmptyBuffer | internal/tui/scroll.go:38-39 | On an empty buffer, paging down sets the offset to -1, outside every line |
| Scroll.PageUpThenDown | internal/tui/scroll.go:31-52 | When neither end of the buffer is reached, a page up followed by a page down returns to the same model |
| Common.Min | internal/tui/scroll.go:55-60 | The result is one of the arguments and no larger than either |
| Common.Max | internal/tui/scroll.go:62-67 | The result is one of the arguments and no smaller than either |
| Common.GoHalf | internal/tui/components/article_viewer.go:143 | Go's integer halving truncates toward zero, for negative operands too |
| ContentNav.VisibleHeight | internal/tui/keys.go:491-494 | The text rows are height - 3, or 10 when that is below 1; never below 1 |
| ContentNav.ClampColumn | internal/tui/keys.go:500-508 | Only the column changes: to the smaller of itself and the addressed line's display width when that line exists, and not at all past the buffer |
| ContentNav.ContentDown | internal/tui/keys.go:485-514 | No-op outside the article view; above the last window row the cursor moves down a row and the column is clamped; on the last row the view scrolls instead |
| ContentNav.ContentUp | internal/tui/keys.go:516-538 | No-op outside the article view; below the top row the cursor moves up and the column is clamped; on the top row it scrolls only when the offset is positive |
| ContentNav.ContentLeft | internal/tui/keys.go:540-549 | Only the column changes, by -1 in the article view when it is positive; it stops at 0 |
| ContentNav.ContentRight | internal/tui/keys.go:551-565 | Only the column changes, by +1 exactly when the article view addresses a line and the column is below that line's width |
| ContentNav.GoTop | internal/tui/keys.go:44-49 | `g` zeroes the offset, row and column and touches nothing else |
| ContentNav.GoBottom | internal/tui/keys.go:50-57 | `G` on a non-empty buffer puts the offset on the last line with row and column 0; on an empty buffer nothing changes |
| ContentNav.ContentDownKeepsRow | internal/tui/keys.go:491-512 | Moving down keeps the cursor row inside the window |
| ContentNav.ContentUpKeepsRow | internal/tui/keys.go:521-536 | Moving up keeps the cursor row inside the window |
| ContentNav.VerticalMoveClampsColumn | internal/tui/keys.go:496-532 | A vertical move that stays inside the window leaves the column no further right than the end of the newly addressed line |
| ContentNav.HorizontalMoveKeepsColumn | internal/tui/keys.go:540-565 | Left and right moves keep a column that lies on the line on the line |
| ContentNav.ScrollDownKeepsColumn | internal/tui/keys.go:509-512 | Moving down from the last window row, with lines left below, only advances the offset: row and column stay |
| ContentNav.ScrollLeavesColumnPastLine | internal/tui/keys.go:509-512 | A concrete buffer where scrolling down moves the cursor from column 1 of a one-column line to an empty line without clamping the column |
| HitTest.StrictIndex | internal/tui/components/article_viewer.go:186-196 | The first link on the line whose columns cover the cursor column, or none exactly when no link on the line covers it |
| HitTest.FindLinkStrict | internal/tui/components/article_viewer.go:178-197 | None when the addressed line is outside the buffer; otherwise the first covering link on that line, which covers the column |
| HitTest.LenientFrom | internal/tui/links.go:29-54 | The scan returns the first link on the line within one column of it, or else the earliest link whose centre is nearest; no result means every link on the line is more than 10 columns away |
| HitTest.LenientIndex | internal/tui/links.go:29-61 | A link on the addressed line: the first near one, or else the earliest nearest one within 10 columns of its centre |
| HitTest.FindLinkLenient | internal/tui/links.go:10-62 | None outside the article view or off the buffer; otherwise exactly the link `HitTest.LenientIndex` picks on the addressed line, measured against that line's display width, so it is a link of that line, and a covering link always yields a result |
| HitTest.LenientFindsStrictHit | internal/tui/links.go:34-36 | Whenever the strict tester finds a link, the lenient one finds a near link at the same index or an earlier one |
| HitTest.TestersDisagreeOnlyOnEarlierNeighbour | internal/tui/links.go:34-41 | When the two testers disagree, the lenient one chose an earlier link that does not cover the column |
| HitTest.HighlightAndOpenDiffer | internal/tui/links.go:34-41 | Two adjacent links where the link drawn highlighted is the second and the link opened is the first |
| Keys.HandleKeyMsg | internal/tui/keys.go:15-112 | While loading every key is ignored; the manager takes every key; the article view handles its own keys first; everything else goes to the shared keys |
| Keys.HandleContentKey | internal/tui/keys.go:26-64 | In the article view j/down, k/up, h/left and l/right reach the four cursor handlers, ctrl+u and ctrl+d the half-page scrolls, `g` and `G` the top and bottom jumps, `o` and `c` the link opener and copier; only `o` and `c` produce a command |
| Keys.HandleGeneralKey | internal/tui/keys.go:67-111 | `q`/ctrl+c quit; j/down, k/up, enter and esc go to `handleDown`, `handleUp`, `handleEnter` and `handleEscape`; `s` saves the state; `m` opens the manager from landing or feeds and toggles the read flag in the article list; `f` moves from landing to feeds to manager and does nothing elsewhere; any other key changes nothing |
| Keys.HandleDown | internal/tui/keys.go:114-138 | In the feed list the next configured feed, in the article list the next item of the selected channel, never past the last; other views are unchanged |
| Keys.HandleUp | internal/tui/keys.go:140-152 | In the feed list and article list the previous entry, never before the first; other views are unchanged |
| Keys.UpDownKeepSelection | internal/tui/keys.go:114-152 | Up and down keep the feed index on a configured feed and the article cursor on an item of the selected channel |
| Keys.HandleEnter | internal/tui/keys.go:154-193 | A feed with items opens its article list at the top; a selected article starts loading its link; otherwise nothing happens |
| Keys.HandleEscape | internal/tui/keys.go:195-214 | One level back: feeds to landing, articles to feeds, the article view to the list with the article and cursor cleared but the offset kept |
| Keys.EnterThenEscape | internal/tui/keys.go:154-214 | Enter on a feed with articles and then Esc come back to the feed list with the same feed selected; only the list cursor is reset to 0 |
| Keys.EscapeThenEnter | internal/tui/keys.go:154-214 | Esc out of an article returns to the list on the same item, and Enter there requests the same article link again |
| Keys.FlipRead | internal/tui/keys.go:244-245 | Exactly one item of one channel has its read flag flipped; every other item and channel is unchanged |
| Keys.ToggleReadStatus | internal/tui/keys.go:217-255 | In the article list with a valid selection, the item's flag flips and the state records it; otherwise nothing changes and no save is asked for |
| Keys.ToggleSyncsState | internal/tui/keys.go:244-252 | After a toggle, the state reads the item as read exactly when its flag says so |
| Keys.FlipKeepsUrls | internal/tui/keys.go:244-245 | Flipping a flag changes no channel URL, so the feed-to-channel lookup is unchanged |
| Keys.ToggleTwiceRestoresFeeds | internal/tui/keys.go:217-255 | Toggling the same article twice restores the channel list |
| Keys.DropLast | internal/tui/keys.go:374-376 | The text minus its last character; empty text stays empty |
| Keys.AppendAddField | internal/tui/keys.go:389-398 | Typed text goes to the end of the active add-form field, and nowhere else |
| Keys.BackspaceAddField | internal/tui/keys.go:370-386 | Backspace removes the last character of the active add-form field only |
| Keys.NamedKeysNotTyped | internal/tui/keys.go:389 | None of the named keys the form handles is one byte long, so none is taken as typed text |
| Keys.NewFeed | internal/tui/keys.go:345-356 | The new feed has the typed URL and category and the parsed tag list |
| Keys.HandleAddFeedKeys | internal/tui/keys.go:318-401 | Esc clears and closes the form; Tab cycles the field; Enter without a URL only records the error, and with one closes the form and asks to add and load the feed; typed text is appended |
| Keys.TypeThenBackspace | internal/tui/keys.go:370-399 | Typing a character and then Backspace restores the form |
| Keys.ApplyEdit | internal/tui/keys.go:446-459 | The field being edited is written into the feed, tags parsed from the text; other fields are kept |
| Keys.HandleEditFeedKeys | internal/tui/keys.go:404-482 | A cursor past the list closes the form; Tab stores the field and shows the next; Enter stores it, closes the form and asks for the update |
| Keys.TabKeepsStoredFeed | internal/tui/keys.go:419-443 | Tab over a field whose text already matches the stored feed leaves the feed and only moves to the next field |
| Keys.EditTabCycleKeepsFeed | internal/tui/keys.go:419-443 | Tabbing through all three fields without typing leaves the configured feed unchanged and returns to the URL field |
| Keys.HandleFeedManagementKeys | internal/tui/keys.go:258-315 | An open form takes the key; otherwise Esc goes to the feed list, j/k move within the list, `a` opens the add form, `e` the edit form, `d` asks to delete, `r` to reload |
| Keys.OpenLinkUnderCursor | internal/tui/keys.go:567-575 | The model is unchanged; a link is opened exactly when the lenient tester finds one, and the URL opened is that link's URL |
| Keys.CopyLinkUnderCursor | internal/tui/keys.go:577-585 | The model is unchanged; a link is copied exactly when the lenient tester finds one, and the URL copied is that link's URL |
| Keys.ManagerNeverReachesLanding | internal/tui/keys.go:21-23 | From the manager no key leads to the landing screen, so `handleEscape`'s manager case is never reached |
| Keys.ContentFallsThroughToGeneral | internal/tui/keys.go:26-77 | In the article view `q` still quits and Esc goes back to the article list |
| FeedForm.NextField | internal/tui/keys.go:329-336 | Tab moves from each field to a different one; no active field stays so |
| FeedForm.NextFieldCycles | internal/tui/keys.go:329-336 | Three Tabs return to the starting field and two do not |
| FeedForm.ParseTags | internal/tui/keys.go:345-350 | Empty text gives no tags; every tag is free of commas and surrounding white space |
| FeedForm.TagsRoundTrip | internal/tui/keys.go:427-440 | The tags the edit form shows joined with ", " read back as the same tags, when they are trimmed, comma-free and not a single empty tag |
| FeedForm.EmptyTagLost | internal/tui/keys.go:429-437 | A single empty tag reads back as no tags |
| FeedForm.SplitJoin | internal/tui/keys.go:434 | Splitting undoes joining for separator-free pieces |
| Common.TrimSpace | internal/tui/keys.go:348 | The trimmed text is an infix with no white space at either end, and empty exactly when the text is all white space |
| Common.Split | internal/tui/keys.go:347 | At least one piece, none holding the separator, and joining the pieces gives the text back |
| Common.ReplaceFirst | internal/tui/components/article_viewer.go:57 | The first occurrence of the pattern is replaced and the text around it kept; text without the pattern is unchanged |
| Common.NatToStringRoundTrip | internal/tui/components/article_viewer.go:105 | The printed decimal digits read back as the number |
| Common.IntToString | internal/tui/components/article_viewer.go:105 | A minus sign exactly for a negative number, then decimal digits that read back as its magnitude |
| Common.ByteLen | internal/tui/components/article_viewer.go:136-138 | The UTF-8 length of a text is between one and four bytes per character |
| Common.ByteLenAppend | internal/tui/components/article_viewer.go:145 | The byte length of joined text is the sum of the byte lengths |
| Common.IndexOf | internal/tui/utils/links.go:118-119 | The first occurrence of the pattern: it occurs there, nowhere earlier, and there is none exactly when it occurs nowhere |
| TuiModel.NewModel | internal/tui/model.go:62-94 | Landing view, not loading, no error, cursors and offsets 0, 80 by 24, forms closed with the URL field active, nothing read, the default configuration |
| TuiModel.FindLoaded | internal/tui/view.go:20-25 | The first loaded channel fetched from the URL, or none exactly when no channel was |
| TuiModel.LoadedFeedIndex | internal/tui/view.go:13-26 | None for an index outside the configured feeds; otherwise the first channel loaded from that feed's URL |
| ArticleViewer.ContentHeight | internal/tui/components/article_viewer.go:20-35 | height - 2 without a title, height - 3 with one once height is at least 4; at least 1 exactly when height is at least 3 |
| ArticleViewer.VisibleWindow | internal/tui/components/article_viewer.go:38-47 | The lines from the offset on, at most the content height of them, in order |
| ArticleViewer.Pad | internal/tui/components/article_viewer.go:76-78 | The rows are kept and empty rows are added up to the content height |
| ArticleViewer.HighlightLine | internal/tui/components/article_viewer.go:49-60 | The first occurrence of the link's URL in the line is replaced by its styled form; a line without it is unchanged |
| ArticleViewer.Body | internal/tui/components/article_viewer.go:13-81 | Three outcomes besides rows, each exactly when it happens: the "No content available." notice for an empty buffer; no rows when the offset is past the buffer; a panic when a negative offset or content height reaches the slice expression. Rows are exactly content-height many, empty past the buffer, each other row the article line, and the cursor row with the marker at the clamped column |
| ArticleViewer.BodyPanicsWhenShort | internal/tui/components/article_viewer.go:30-46 | With a line at the offset, drawing panics exactly when the terminal is at most one row high, with or without a title |
| ArticleViewer.HighlightRows | internal/tui/components/article_viewer.go:48-60 | The window rows are kept except the cursor row, which becomes the addressed line with the link found by the strict tester highlighted |
| ArticleViewer.PlaceCursor | internal/tui/components/article_viewer.go:62-73 | The rows are kept except the cursor row, which gets the reverse-video marker at the cursor column clamped to the row's display width |
| ArticleViewer.GoBottomShowsOneLine | internal/tui/components/article_viewer.go:38-47 | After `G` the first row is the last article line and every other row is empty |
| ArticleViewer.StatusCenter | internal/tui/components/article_viewer.go:104-106 | Empty exactly when there are no lines |
| ArticleViewer.StatusCenterReadsBack | internal/tui/components/article_viewer.go:104-106 | The centre text is "line " then the digits of offset + 1, a slash, and the digits of the line count, and both numbers read back |
| ArticleViewer.BytePrefix | internal/tui/components/article_viewer.go:150 | The longest character prefix that fits in the byte budget |
| ArticleViewer.FitWidth | internal/tui/components/article_viewer.go:146-151 | A short line is padded with spaces to exactly the width in bytes; a long one is cut to the longest prefix that fits |
| ArticleViewer.RoomyStatus | internal/tui/components/article_viewer.go:141-152 | The status line is exactly the width in bytes: left part, centre with spacers differing by at most one, right part, then padding |
| ArticleViewer.RoomyNeverCuts | internal/tui/components/article_viewer.go:141-151 | In the roomy layout the joined line is two bytes short of the width, so it is padded and never cut |
| Text.CsiEnd | internal/tui/utils/links.go:110 | A match starts with ESC `[`, continues with parameter characters and ends with a letter; `Text.CsiEndComplete` states the converse |
| Text.CsiEndComplete | internal/tui/utils/links.go:110 | Conversely, every ESC `[`, parameter run and letter at an index is matched there, up to that letter |
| Text.StripAnsi | internal/tui/utils/links.go:109-112 | Never longer than the input, only input characters, and text without ESC is unchanged; the deletion of each sequence is `Text.StripAnsiDeletesCsi` |
| Text.StripAnsiPlainPrefix | internal/tui/utils/links.go:109-112 | Text without ESC in front passes through and the strip continues on the rest |
| Text.StripAnsiDeletesCsi | internal/tui/utils/links.go:109-111 | A whole CSI sequence after text without ESC is deleted, and the text before it is kept |
| Text.StripAnsiCsiHead | internal/tui/utils/links.go:110-111 | A CSI sequence at the front is deleted whole and stripping continues after it |
| Text.StripAnsiNotIdempotent | internal/tui/utils/links.go:109-112 | A string whose stripped form can be stripped further |
| Text.DisplayWidthAppend | internal/tui/keys.go:504 | The width of joined text is the sum of the widths (a property of the per-character sum; see Left out) |
| Text.DisplayWidth | internal/tui/keys.go:504 | The width of text is at most two columns per character; it sums the width parameter over the characters (see Left out) |
| Text.LineWidth | internal/tui/keys.go:504 | The width of a styled line is at most two columns per character, and a line without ESC is measured as it is |
| Text.InsertCursorNegative | internal/tui/utils/text.go:30-32 | A negative column is column 0 |
| Text.InsertCursor | internal/tui/utils/text.go:29-98 | The line is copied unchanged up to some index, where the reverse-video marker `ESC[7m` begins |
| Text.InsertCursorSkipsCsi | internal/tui/utils/text.go:43-56 | A style sequence in front of the line is copied and takes no column |
| Text.InsertCursorSkipsChar | internal/tui/utils/text.go:58-91 | A character left of the cursor is copied and advances the column by its width |
| Text.InsertCursorHit | internal/tui/utils/text.go:64-74 | The character at the cursor is wrapped in reverse video and the rest is copied |
| Text.InsertCursorInsideWide | internal/tui/utils/text.go:76-87 | A cursor inside a wide character puts a reverse-video blank before it and keeps it |
| Text.InsertCursorStopsAtRuneError | internal/tui/utils/text.go:59-62 | An undecodable character ends the scan: the rest is dropped and a reverse-video blank appended |
| Text.InsertCursorPastEnd | internal/tui/utils/text.go:94-97 | A cursor beyond the end of a decodable line appends a reverse-video blank to the unchanged line |
| Text.InsertCursorAtEnd | internal/tui/utils/text.go:94-97 | A cursor exactly at the end of a line of non-zero-width characters appends a reverse-video blank |
| Text.RemoveTags | internal/tui/utils/text.go:15-16 | No `<` is followed later by `>` in the result; text without `<` is unchanged; `Text.RemoveTagsDropsTag` and `Text.RemoveTagsKeepsText` state what is deleted and what is kept |
| Text.RemoveTagsDropsTag | internal/tui/utils/text.go:15-16 | A complete tag `<...>` is deleted, whatever follows it |
| Text.RemoveTagsKeepsText | internal/tui/utils/text.go:15-16 | Text without `<` is kept, and removal carries on after it |
| Text.CollapseSpace | internal/tui/utils/text.go:22 | No two neighbouring white-space characters, every one a blank; empty and leading white space preserved |
| Text.CollapseSpaceFixpoint | internal/tui/utils/text.go:22 | Collapsed text is left as it is |
| Text.CollapseSpaceIdempotent | internal/tui/utils/text.go:22 | Collapsing twice is collapsing once |
| Text.StripHtml | internal/tui/utils/text.go:13-25 | The cleaned text never has two neighbouring white-space characters, and each is a blank |
| LinkScan.BracketAt | internal/tui/utils/links.go:25 | A match at the index is a well-formed `[text](url)` span with non-empty text free of `]` and URL free of `)`; `LinkScan.BracketAtComplete` states that every such span is matched |
| LinkScan.BracketAtComplete | internal/tui/utils/links.go:25 | Every well-formed `[text](url)` span is the match found at its `[`, so the scanner misses none and the match at an index is unique |
| LinkScan.BracketMatches | internal/tui/utils/links.go:25-28 | Every match is a well-formed bracket span, left to right and non-overlapping; `LinkScan.BracketMatchesComplete` states that none is skipped |
| LinkScan.BracketMatchesReach | internal/tui/utils/links.go:25-28 | Scanning from an index reaches every bracket span starting at or after it: some match found covers its `[` |
| LinkScan.BracketMatchesComplete | internal/tui/utils/links.go:25-28 | Every bracket span from the index on is among the matches, unless it starts inside an earlier match |
| LinkScan.SchemeLen | internal/tui/utils/links.go:50 | A present `https://` gives 8 and a present `http://` gives 7, so `https://` is preferred; no scheme gives 0 |
| LinkScan.UrlAt | internal/tui/utils/links.go:50 | A match at the index is an http(s) URL with at least one character after the scheme and none from the stop set; there is one exactly when a scheme is followed by a non-stop character, and it runs up to the next stop character or the end |
| LinkScan.UrlMatches | internal/tui/utils/links.go:50-51 | Every match is a URL span, left to right and non-overlapping; `LinkScan.UrlMatchesComplete` states that none is skipped |
| LinkScan.UrlMatchesReach | internal/tui/utils/links.go:50-51 | Scanning from an index reaches the URL match at every later position: some match found covers that position, and is that URL if it starts there |
| LinkScan.UrlMatchesComplete | internal/tui/utils/links.go:50-51 | The URL match at any position from the index on is among the matches, unless it starts inside an earlier match |
| LinkScan.MkBracketLink | internal/tui/utils/links.go:31-45 | The link's text and URL are the groups, and its byte offsets span the whole construct with an exclusive end |
| LinkScan.MkPlainLink | internal/tui/utils/links.go:53-60 | The link's text and URL are the match, and its byte offsets span it with an exclusive end |
| LinkScan.MarkdownLineLinksLine | internal/tui/utils/links.go:27-62 | Every link found on a line carries that line's index |
| LinkScan.MarkdownLineLinksBrackets | internal/tui/utils/links.go:28-47 | Within a line, the bracket links come first, one per bracket match, in order |
| LinkScan.MarkdownLineLinksUrls | internal/tui/utils/links.go:50-61 | The links past the bracket links are the bare URL matches of the line, one each, in the same order |
| LinkScan.MarkdownLineLinksOk | internal/tui/utils/links.go:36-60 | Every link of a line is a valid bracket link or bare URL of that line |
| LinkScan.MarkdownLinksFrom | internal/tui/utils/links.go:27-62 | Links of the later lines, in line order, each valid for its line; `LinkScan.MarkdownLinksFromHas` states that every line's links are kept |
| LinkScan.ParseLinksFromMarkdown | internal/tui/utils/links.go:20-65 | Every link is valid for the line it names, and the links come in line order; the two `ParseLinksFromMarkdownFinds` lemmas state that every link in the text is reported unless it starts inside an earlier match |
| LinkScan.MarkdownLinksFromHas | internal/tui/utils/links.go:27-62 | Every link of a line is among the links collected from any earlier line on |
| LinkScan.ParseLinksFromMarkdownFindsBracket | internal/tui/utils/links.go:25-47 | Every bracket span of a line is reported as a link of that line, unless it starts inside an earlier bracket span of the line |
| LinkScan.ParseLinksFromMarkdownFindsUrl | internal/tui/utils/links.go:50-61 | Every URL match of a line is reported whole as a link of that line, unless it starts inside an earlier URL of the line |
| LinkScan.BracketTargetSeenTwice | internal/tui/utils/links.go:50-60 | On the sample line `[a](http://b)`, the bracket link's target is also reported as a bare URL, one that includes the closing parenthesis |
| LinkScan.TwiceBracketLink | internal/tui/utils/links.go:39-45 | The bracket link of a sample line spans bytes 0 to 13, end exclusive |
| LinkScan.TwicePlainLink | internal/tui/utils/links.go:54-60 | The bare URL of the same line is `http://b)` at bytes 4 to 13 |
| LinkScan.MkRenderedLink | internal/tui/utils/links.go:80-101 | The link's start is the display width of the unstyled text before the match, and its end is inclusive |
| LinkScan.RenderedLinksOf | internal/tui/utils/links.go:77-102 | One link per URL match of a styled line, in order, each positioned in display columns |
| LinkScan.RenderedLinksFrom | internal/tui/utils/links.go:75-103 | Links of the later lines, in line order, each a URL of its line; `LinkScan.RenderedLinksFromHas` states that every line's links are kept |
| LinkScan.ParseLinksFromRenderedContent | internal/tui/utils/links.go:68-106 | Every link is an http(s) URL of the line it names, free of white space, ESC, brackets and parentheses, and the links come in line order; `LinkScan.ParseLinksFromRenderedFindsUrl` states that every URL in the text is reported unless it starts inside an earlier one |
| LinkScan.RenderedLinksFromHas | internal/tui/utils/links.go:75-103 | Every link of a line is among the links collected from any earlier line on |
| LinkScan.ParseLinksFromRenderedFindsUrl | internal/tui/utils/links.go:73-102 | Every URL match of a styled line is reported whole, in display columns, unless it starts inside an earlier URL of the line |
| LinkScan.WrappedAt | internal/tui/utils/links.go:126-127 | A match of the style-wrapped pattern contains the URL |
| LinkScan.LastWrappedCandidate | internal/tui/utils/links.go:126-127 | A candidate is a position in the range where the URL occurs followed by ESC `[` |
| LinkScan.LastWrappedCandidateLast | internal/tui/utils/links.go:126-127 | The candidate is the last such position in the range (the greedy parameter run backs off least), and no candidate means the range holds none |
| LinkScan.FirstWrapped | internal/tui/utils/links.go:126-131 | A non-empty result is a match of the style-wrapped pattern and holds the URL, which therefore occurs in the line |
| LinkScan.FirstWrappedFinds | internal/tui/utils/links.go:126-131 | The result is empty exactly when no position from the index on starts a match |
| LinkScan.FirstWrappedSkips | internal/tui/utils/links.go:126-127 | Positions that start no match are passed over, so the reported match is the leftmost one |
| LinkScan.FindUrlInRenderedLine | internal/tui/utils/links.go:115-133 | The URL itself when it occurs literally; nothing when it does not; any non-empty result contains the URL |
| Storage.IsRead | internal/storage/state.go:27-29 | An absent key reads as unread |
| Storage.MarkAsRead | internal/storage/state.go:23-25 | The article reads as read afterwards, and every other key reads as before |
| Storage.MarkAsReadIdempotent | internal/storage/state.go:24 | Marking twice is marking once |
| Storage.MarkAsReadWhenRead | internal/storage/state.go:24 | Marking an article already read changes nothing |
| Storage.MarkUnread | internal/tui/keys.go:251 | The article reads as unread afterwards, and every other key reads as before |
| Storage.MarkUnreadUndoesMark | internal/tui/keys.go:248-251 | Unmarking an article just marked restores the state it had when unread |
| Storage.NewAppState | internal/storage/state.go:102-108 | Nothing is read, there are no feed URLs, and the time stamp is the clock's reading |
| Storage.NormalizeDecodedState | internal/storage/state.go:59-65 | A missing read map becomes empty and a missing feed list becomes empty; present values are kept |
| Storage.NormalizeFeedUrl | internal/storage/config.go:89-108 | Empty exactly for white-space-only input; a trimmed URL with a scheme that parses is kept; anything else gets `https://` in front; never white space at either end |
| Storage.NormalizeFeedUrlIdempotent | internal/storage/config.go:89-108 | Normalising a normalised URL changes nothing, once the parser accepts it |
| Storage.HasSchemeHttps | internal/storage/config.go:99-104 | A URL that got `https://` in front has a scheme |
| Storage.SchemeEnd | internal/storage/config.go:96-105 | A result is a `:` reached through scheme characters only |
| Storage.SchemeEndFinds | internal/storage/config.go:96-105 | Every `:` reached through scheme characters is found |
| Storage.RewriteUrls | internal/storage/config.go:68-76 | Every URL is replaced by its rewrite, other fields kept, and a save is needed exactly when some URL changed |
| Storage.NormalizeFeeds | internal/storage/config.go:68-76 | Every feed URL is replaced by its normalisation, and a save is needed exactly when some URL changed |
| Storage.LoadDecodedConfig | internal/storage/config.go:56-85 | A missing feed list becomes empty; otherwise every feed is normalised; the other settings are kept |
| Storage.DefaultConfig | internal/storage/config.go:143-157 | One feed, the mitchellh.com feed, category Tech, two tags; auto-save and mark-read on; 60-minute refresh |
| Storage.DefaultConfigNormalized | internal/storage/config.go:143-157 | The default feed URL is already in normal form |
| Feed.FirstAlternate | internal/feed/rss_reader.go:104-109 | The first link whose rel is "alternate" or empty, or none exactly when there is no such link |
| Feed.SelectLink | internal/feed/rss_reader.go:104-112 | The first alternate link's href when non-empty, otherwise the first link's href, and nothing for no links |
| Feed.EntryLink | internal/feed/rss_reader.go:122-134 | The selected link, or the entry ID when that is empty |
| Feed.EntryItem | internal/feed/rss_reader.go:117-143 | Title copied, link as selected, unread, and the published date or else the updated date |
| Feed.ConvertAtom | internal/feed/rss_reader.go:89-147 | Title and description from the feed, the requested URL recorded, one item per entry in order |
| Feed.LooksLikeAtomIsFeedPrefix | internal/feed/rss_reader.go:71 | The second test of the detection is implied by the first |
| Feed.ReadBody | internal/feed/rss_reader.go:69-100 | A body containing `<feed` goes through the Atom decoder and anything else through the RSS decoder; a decoding error is an error; the channel records the requested URL |
| Messages.HandleFeedLoad | internal/tui/messages.go:13-27 | Loading ends; an error is recorded; a channel is appended as it is, even if already present, and the error cleared |
| Messages.FeedLoadKeepsSelection | internal/tui/messages.go:13-27 | A feed load never changes the channel an already-loaded selected feed shows, keeps the feed selection in range exactly when it was, and keeps an article cursor in range when the selected feed was loaded or the cursor was 0 |
| Messages.FirstItemWithLink | internal/tui/messages.go:45-50 | The first item linking to the URL, or none exactly when no item does |
| Messages.MarkFirstRead | internal/tui/messages.go:45-50 | Only the first item linking to the URL is marked read |
| Messages.RenderForScrolling | internal/tui/messages.go:211-223 | Empty content renders to nothing without calling the renderer; otherwise the renderer decides |
| Messages.ArticleText | internal/tui/messages.go:55-64 | After a rendering failure the raw lines and markdown links; otherwise the rendered lines and rendered links; every link names one of the lines |
| Messages.HandleArticleLoad | internal/tui/messages.go:29-74 | On failure only loading and the error change; on success the article view opens at the top, the URL is marked read, the matching item of the channel at the feed's position is marked, and a save is asked for |
| Messages.SyncItems | internal/tui/messages.go:90-92 | Every item's read flag is taken from the state and nothing else changes |
| Messages.SyncFeeds | internal/tui/messages.go:89-93 | Every channel's items are synchronised with the state |
| Messages.EmptyState | internal/tui/messages.go:79-82 | Nothing is read and there are no feed URLs |
| Messages.HandleStateLoad | internal/tui/messages.go:76-96 | On failure an empty state; on success the loaded state, and every item's flag taken from it |
| Messages.StateLoadSyncsFlags | internal/tui/messages.go:89-93 | After a successful load every item's flag agrees with the state |
| Messages.SetErr | internal/tui/messages.go:98-103 | An error is recorded; no error changes nothing |
| Messages.LoadFeedCmds | internal/tui/messages.go:114-117 | One load per configured feed, in order |
| Messages.HandleConfigLoad | internal/tui/messages.go:105-125 | On failure only the error; on success the new configuration and one batched load per feed, or no command for no feeds |
| Messages.ConfigLoadThenFeedsArrive | internal/tui/messages.go:105-125 | After a configuration loads and its fetched channels arrive one by one, every configured feed whose URL some delivered channel came from has a loaded channel |
| Messages.ClearOrSetErr | internal/tui/messages.go:133-142 | The error becomes the reported one, cleared on success |
| Messages.HandleFeedDeleted | internal/tui/messages.go:144-163 | On failure only the error; on success the channel at the index goes when there is one, the cursor moves back when it is past the list, and the error is cleared |
| Messages.HandleFeedUpdated | internal/tui/messages.go:165-175 | The error becomes the reported one; on success the feed is loaded again |
| Messages.HandleClipboardPaste | internal/tui/messages.go:187-208 | On failure only the error; the text goes to the active add-form field, or to the edit value, and nothing else changes |
| Messages.PasteIsTyping | internal/tui/messages.go:194-202 | Pasting a character into the add form is typing it |
| Commands.AddFeedToConfig | internal/tui/commands.go:98-107 | The feed is appended, earlier feeds and other settings kept, and the reply echoes the feed |
| Commands.DeleteFeedFromConfig | internal/tui/commands.go:110-121 | An index outside the list is an error with the list unchanged; otherwise exactly that feed goes, the rest keep their order, and the reply echoes the index |
| Commands.UpdateFeedInConfig | internal/tui/commands.go:124-134 | An index outside the list is an error with the list unchanged; otherwise only that feed is replaced, and the reply echoes index and feed |
| Commands.DeleteUndoesAdd | internal/tui/commands.go:98-121 | Deleting the feed just added restores the configuration |
| Commands.DeleteRemovesOne | internal/tui/commands.go:117 | A delete removes exactly one occurrence of the deleted feed from the multiset of feeds |
| Commands.UpdateUndone | internal/tui/commands.go:130 | Writing the old feed back undoes an update |
| Commands.RunConfigCmd | internal/tui/commands.go:97-134 | Running a list command changes only the configuration, as the command says, and yields its reply |
| TuiUpdate.Update | internal/tui/update.go:8-82 | Each message goes to its handler; open and copy results and save results only record an error; resizing sets the dimensions; anything else changes nothing |
| TuiUpdate.DeleteSendsWellFormed | internal/tui/commands.go:110-121 | A successful delete reply never carries a negative index |
| TuiUpdate.ResizeOnlyResizes | internal/tui/update.go:75-78 | A resize changes only width and height |
| TuiUpdate.DeleteRoundTrip | internal/tui/messages.go:144-163 | `d` in the manager, the delete, and its reply remove exactly the selected feed; on success the cursor ends inside the list, on failure it stays and the error shows |
| TuiUpdate.AddRoundTrip | internal/tui/keys.go:338-366 | Enter in the add form, the add, and its reply append the new feed, close the form and clear the error |
| TuiUpdate.ArticleLoadMarksByPosition | internal/tui/messages.go:41-51 | Feeds loaded in swapped order: the opened article is read in the state but its item in the article list stays unread |
| ViewSelect.EffectiveWidth | internal/tui/view.go:30-33 | A width below 40 is drawn as 80; any other width is kept |
| ViewSelect.CountRead | internal/tui/view.go:56-60 | No more items are counted read than there are |
| ViewSelect.ReadWithinTotal | internal/tui/view.go:52-61 | The landing page never shows more read articles than articles |
| ViewSelect.LandingStats | internal/tui/view.go:52-61 | The nested loops compute the total item count and the read count over all channels, the second no larger than the first |
| ViewSelect.ToggleMovesReadCountByOne | internal/tui/view.go:52-61 | Toggling an article keeps the landing total and moves the read count by exactly one |
| ViewSelect.ViewScreen | internal/tui/view.go:29-137 | An error hides everything, then loading; the article list shows exactly when the selected feed's channel arrived, a loading line for a configured feed not yet loaded, and "no feed" otherwise |
| ViewSelect.ArticleLoadShows | internal/tui/view.go:36-108 | After an article arrives the screen shows it, or the error that came instead |
| ViewSelect.ErrorSurvivesNavigation | internal/tui/view.go:36-38 | A recorded error stays on screen through navigation keys |

## Left out

- Network, files and processes are not modelled: fetching feeds and articles, the JSON files of configuration and state, opening the browser, and the clipboard. Each is a command the runtime performs, and its result arrives as a message.
- Article extraction (`internal/feed/article.go`) and the glamour renderer are parameters.
- `xml.Unmarshal` is a parameter: `Feed.ReadBody` receives the decoders.
- `runewidth`'s width table is a parameter with values 0 to 2.
- `url.Parse` is reduced to its scheme rule (RFC 3986 section 3.1). Its other checks are the parameter `parseFails`.
- `html.UnescapeString` is a parameter of `Text.StripHtml`.
- `time.Now` is the parameter `now`.
- `LoadFeedsFromConfig` is not modelled: it builds load commands and then discards them.
- The `handlers` package is not modelled: `Update` never reaches it.
- `main.go` and `init.go` are start-up wiring and are not modelled.
- The cosmetic components (landing page, feed list, article list, category list, feed manager, styles) are not modelled. `View` is modelled only as the choice of screen and the values shown.
- The `Categories`, `CurrentCategory`, `ShowCategories`, `Reader` and `Fetcher` fields of `Model` are not modelled: no modelled handler reads them.
- The "Unknown view" branch of `View` is not modelled: the view is an enumeration with no other values.
- The nil checks on `Config` and `State` are not modelled. Both are always set: `NewModel` sets them, and the loaders only ever install non-nil values.
- `HandleFeedLoad`'s nil-channel case is not modelled: a result is either an error or a channel.
- `ConfigLoadMsg` replaces Go's `m.Config` pointer. The model installs the new configuration value, so commands built later see it, which is the same behaviour.
- Saving the read state: the command `SaveStateCmd`, which `Keys.ToggleReadStatus`, `Keys.HandleGeneralKey` and `Messages.HandleArticleLoad` emit, captures the read state as a value when the key or message is handled. Go's `SaveState(m.State)` (`commands.go:21`) captures the pointer and saves whatever the state holds when the command runs. The two differ only when a later toggle is handled before an earlier save runs.
- Status bar: the title truncation (`displayTitle[:22]`, `[:width-3]`) is not modelled.
- Status bar: the URL truncation of the right part is not modelled. `ArticleViewer.RoomyStatus` takes the left and right parts as given.
- Status bar: the narrow layout (`article_viewer.go:153-174`) is not modelled.
- ArticleViewer.FitWidth: cuts at a character boundary, whereas Go's `statusLine[:width]` can cut inside a multi-byte character. For ASCII status text the two agree.
- Keys.DropLast: removes the last character, whereas the Go code removes the last byte. The two differ only for non-ASCII text.
- Keys.HandleAddFeedKeys: treats a key as typed text when its name is one byte long, as the Go code does. Non-ASCII keys are therefore ignored in both.
- Text.StripHtml: states only the white-space collapse, because entity decoding is a parameter. The tag removal is stated in `Text.RemoveTags`.
- Common.ByteLen: counts an undecodable byte, which the model holds as U+FFFD, as the 3 bytes of U+FFFD's encoding. Go's `len` counts it as 1. On invalid UTF-8 input the byte offsets of `LinkScan.MkBracketLink` and `LinkScan.MkPlainLink`, and the cut point of `ArticleViewer.BytePrefix` and `ArticleViewer.FitWidth`, therefore differ from Go's. They agree on valid UTF-8.
- Text.DisplayWidth: sums a width per character. Go's `runewidth.StringWidth` measures grapheme clusters and counts only the first non-zero width in each. Text with emoji modifiers, zero-width-joiner sequences or regional-indicator flags is wider in the model ("👍🏽" is 2 columns in Go and 4 here). `Text.DisplayWidthAppend` is a property of the per-character sum and does not hold for Go's function on such text. Clamps and hit tests that use `Text.LineWidth` inherit the difference.
