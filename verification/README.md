# Instagram downloader: route handlers and selection grid in Dafny

This project models the decision logic of the Instagram downloader web app.

- **`/api/download`** builds the argument vector for the external `yt-dlp` extractor from the query (`format`, `quality`, `playlist_items`). It runs the extractor under a two-tier cookie retry: first with the Chrome cookie store, then without it, but only if Chrome held the lock on its cookie database. It classifies failures as 400, 403 or 500. After a successful run it finds the output file by its random file-id prefix in the temporary directory, reads it, deletes it, and answers with a content type and download name taken from the file's real extension.
- **`/api/info`** asks the extractor for a metadata dump under the same cookie retry. It reads the dump as one JSON object, or as one object per line. It then reshapes the dump into either a `single` item, with its deduplicated, descending list of video qualities, or a `list` of items. Absent fields are replaced by fallbacks.
- **The selection grid** tracks which tiles of a carousel are selected (`selectedIndices`). It models tile clicks, the select-all button and the download button.

The outside world is abstracted:

- The extractor is an oracle: `Replies` gives what the first and, if it happens, the second invocation do. For downloads this includes the files each run writes.
- The temporary directory is a sequence of entries. A real directory never holds two entries of the same name; the model does not build that in. Instead, `WriteKeepsDistinct`, `ServedFileIsRemoved` and `DownloadCleanup` take it as a hypothesis about the starting directory, and the writes preserve it. A file a run writes replaces any file of the same name. Entries are listed in the order they were last written.
- The random file id is a parameter.
- `JSON.parse` is a parameter that returns the fields the handler reads, or `None` when it throws.
- Responses are datatypes.

The files are organised as follows:

- `js.dfy` (module `Js`) covers the JavaScript string built-ins the handlers rely on.
- `process.dfy` (module `Process`) covers what both handlers share about the extractor. This includes a reference reading of an argument vector as the extractor's option parser sees it, which is used to state that the vector means what was asked for.
- `download.dfy`, `info.dfy` and `selection.dfy` hold one module per source component.

Points of the code's behaviour worth knowing, all modelled as written:

- **Cleanup after failed extractions.** Extraction failures return 403 or 500 without removing files that carry the file id. Only the file-handling catch at download/route.ts:173-181 sweeps them (see Findings).
- **Login signatures.** The download handler reads a message as "login required" when it contains `Instagram API is not granting access`, `sign in` or `login` (download/route.ts:121-123). The info handler matches only the first and the last (info/route.ts:126).
- **When login is recognised.** The download handler checks the login signatures only on a failed second attempt. A login message on the first attempt, without a cookie lock, is a plain 500 after one invocation (download/route.ts:131-134). The info handler maps any failure carrying its signatures to 403, first attempt included (info/route.ts:123-129).
- **Several matching files.** The download handler serves the first listed entry whose name starts with the file id (download/route.ts:139-140).
- **Case.** All signature matches are case-sensitive.

## Model

| member | source | states |
|---|---|---|
| Js.Split | src/app/api/info/route.ts:30 | `split('\n')` yields at least one piece, no piece contains the separator, joining the pieces gives the input back, and there are several pieces exactly when the input contains a line feed |
| Js.SplitJoin | src/app/api/info/route.ts:30 | splitting undoes joining for any pieces free of the separator |
| Js.TrimStart | src/app/api/info/route.ts:30 | the result is the longest suffix that does not start with JavaScript white space; everything dropped is white space |
| Js.TrimEnd | src/app/api/info/route.ts:30 | the result is the longest prefix that does not end with JavaScript white space; everything dropped is white space |
| Js.NatToDecimal | src/app/api/info/route.ts:107 | the decimal text of a number is all digits, has no leading zero, and denotes the number |
| Js.IntToStringInjective | src/app/api/info/route.ts:107 | different numbers are rendered as different texts |
| Process.FailureMessage | src/app/api/download/route.ts:28-34 | a nonzero exit rejects with the accumulated stderr, or, when stderr is empty, with `yt-dlp exited with code ` followed by the exit code's text (`null` when there is none) |
| Process.SynthesizedMessageMatchesNothing | src/app/api/download/route.ts:32 | the synthesized exit message never carries the cookie-lock signature or any login signature |
| DownloadRoute.RejectMessage | src/app/api/download/route.ts:28-38 | the message of a failed run is its stderr if any, else `yt-dlp exited with code ` followed by its exit code's text; a launch failure carries the launch error's message |
| DownloadRoute.BaseArgs | src/app/api/download/route.ts:67-94 | every format's vector ends with `-o`, the output template and the URL |
| DownloadRoute.WithPlaylistItems | src/app/api/download/route.ts:96-102 | without `playlist_items` the vector is unchanged; with it, two more arguments, the pair `--playlist-items P` right before the URL, the URL still last and everything before it kept |
| DownloadRoute.RequestArgs | src/app/api/download/route.ts:67-102 | the URL is the last argument and there are at least three |
| DownloadRoute.ExtractorReadsRequest | src/app/api/download/route.ts:67-107 | read as the extractor's option parser reads it, the vector selects exactly what the request asked: audio extraction to mp3, or the height-capped or `best` selector, or nothing for images; the template; the playlist items; the URL as the one positional argument. The first attempt also selects the Chrome cookie store |
| DownloadRoute.OptionLikeUrlIsNotAUrl | src/app/api/download/route.ts:89-91 | a "URL" such as `--version` is read as an option and leaves the extractor with no URL at all |
| DownloadRoute.Extract | src/app/api/download/route.ts:104-135 | first attempt with the cookie store; a second attempt without it exactly when the first failed on the cookie lock; success exactly when one of the attempts that ran succeeded; a single failed attempt is 500; a failed second attempt is 403 exactly when its message carries a login signature, else 500; the directory is the starting one with the files of each run that happened written into it, in order |
| DownloadRoute.FindFirst | src/app/api/download/route.ts:139-140 | the index found names an entry with the prefix and no earlier entry has it; none is found only when no entry has it |
| DownloadRoute.Sweep | src/app/api/download/route.ts:176-180 | exactly the entries without the prefix remain |
| DownloadRoute.ExtName | src/app/api/download/route.ts:156 | the extension is empty exactly when the name has no '.' after its first character or is `..`; otherwise it is the final segment of the name that starts with its only '.' |
| DownloadRoute.ExtNameOfOutput | src/app/api/download/route.ts:156 | for the extractor's output name `<id>.<ext>` the extension is `.<ext>` |
| DownloadRoute.ContentTypeMatchesTable | src/app/api/download/route.ts:155-161 | each recognised extension gives the media type the table assigns it; any other keeps the format's default |
| DownloadRoute.Filename | src/app/api/download/route.ts:163-164 | the download name is the format's stem followed by the served file's extension |
| DownloadRoute.StripsPlainExtension | src/app/api/download/route.ts:164 | the replacement removes a final `.ext` free of '.' and '/' |
| DownloadRoute.AttachmentFor | src/app/api/download/route.ts:155-171 | the file's bytes are the body, Content-Length is their count, the content type follows its extension, and the download name is the format's stem with that extension |
| DownloadRoute.Serve | src/app/api/download/route.ts:137-181 | an attachment exactly when some entry carries the id and it can be read; then that entry is gone, the body is its bytes, Content-Length is their count and the headers follow the extension; otherwise 500 and every entry carrying the id is swept |
| DownloadRoute.ServedFileIsRemoved | src/app/api/download/route.ts:150-153 | in a directory, serving removes exactly the served file and keeps every other entry |
| DownloadRoute.Download | src/app/api/download/route.ts:42-183 | 400 exactly when the URL is missing or empty, with no invocation and no directory work; at most two invocations, two exactly after a cookie lock; the cookie store only on the first; the URL last in each; 403 exactly when a second attempt failed with a login signature; 200 exactly when the answer is an attachment, which happens exactly when the extraction succeeded and the first entry carrying the file id in the resulting directory could be read, whose bytes are then the body |
| DownloadRoute.DownloadCleanup | src/app/api/download/route.ts:124-181 | after a successful extraction a failed file stage leaves no entry carrying the id and a successful one removes only the served file; after a failed extraction nothing is removed |
| DownloadRoute.Write | src/app/api/download/route.ts:63 | writing files keeps every entry whose name none of them has, adds each file that no later file of the batch overwrites, and invents nothing |
| DownloadRoute.WriteKeepsDistinct | src/app/api/download/route.ts:137-141 | a directory whose names are distinct keeps them distinct however many files are written into it |
| DownloadRoute.LaterWriteWins | src/app/api/download/route.ts:104-153 | when the locked first attempt and the successful second attempt both write `<id>.mp4`, the second attempt's bytes are served and no file is left behind |
| DownloadRoute.SilentFailureIsGeneric | src/app/api/download/route.ts:108-134 | a first failure with empty stderr is not retried and answers 500 |
| DownloadRoute.UnlockedFailureIsFinal | src/app/api/download/route.ts:131-134 | a first failure without the cookie lock answers 500 after a single invocation, keeping whatever that run wrote |
| DownloadRoute.FirstAttemptLoginIsGeneric | src/app/api/download/route.ts:131-134 | a login message on the first attempt is not read as a login problem: 500 after one invocation |
| DownloadRoute.LockedThenLoginSignature | src/app/api/download/route.ts:113-127 | a cookie lock and then a failure with a login signature answer 403 with the login advice after two invocations |
| DownloadRoute.LoginScenario | src/app/api/download/route.ts:113-127 | a cookie lock and then `Instagram API is not granting access` answer 403, leaving the directory as it was |
| DownloadRoute.AudioScenario | src/app/api/download/route.ts:67-171 | an `mp3` request whose first run writes `<id>.mp3` is served after one invocation as `instagram_audio.mp3`, type `audio/mpeg`, Content-Length the byte count, and the file is gone |
| DownloadRoute.PartialFileSurvivesFailure | src/app/api/download/route.ts:124-134 | a partial file left behind by an extractor whose download broke off (`ERROR: unable to download video data: HTTP Error 403: Forbidden`) is still in the directory after the 500 |
| DownloadRoute.DownloadWithSweep | src/app/api/download/route.ts:173-181 | with the sweep on every failure path, the response and invocations are unchanged and no entry carrying the id survives a failure |
| DownloadRoute.SweepKeepsOthers | src/app/api/download/route.ts:176-180 | with that sweep, a failed request keeps every entry not carrying the id |
| InfoRoute.DumpArgs | src/app/api/info/route.ts:6-12 | the dump flags come first, the cookie pair follows only when asked for, and the URL is last |
| InfoRoute.ExtractorReadsDump | src/app/api/info/route.ts:6-12 | the extractor reads the dump flags and the URL, with the Chrome cookie store exactly when it was asked for |
| InfoRoute.ParseAll | src/app/api/info/route.ts:33 | parsing all lines succeeds exactly when every line parses, and then gives one object per line in line order |
| InfoRoute.RunDump | src/app/api/info/route.ts:26-43 | on exit 0, a dump of several lines is a playlist with one entry per line when all parse, and any other dump is one parsed object; the playlist is exactly `{ _type: 'playlist', entries }`, with no title or other field; a parse failure rejects with `Failed to parse JSON output`; a nonzero exit rejects with the failure message |
| InfoRoute.SplitsIntoLines | src/app/api/info/route.ts:30 | surrounding white space aside, a dump of several lines is split back into exactly those lines |
| InfoRoute.FetchWithRetry | src/app/api/info/route.ts:58-69 | the first dump uses the cookie store; a second, without it, runs exactly when the first failed on the cookie lock, and its result stands; otherwise the first result, failure included, stands |
| InfoRoute.ListItem | src/app/api/info/route.ts:83-89 | a list item keeps the entry's id, thumbnail and page URL; its URL falls back to the page URL when the entry's URL is missing or empty; it is a video exactly when the extension is `mp4` or the codec is not `none` |
| InfoRoute.TitleOf | src/app/api/info/route.ts:114 | the title is never empty: the title, else the description, else `Instagram Reel` |
| InfoRoute.Insert | src/app/api/info/route.ts:97-106 | adding a height to a strictly descending list keeps it strictly descending and adds exactly that height |
| InfoRoute.Heights | src/app/api/info/route.ts:96-106 | the heights are strictly descending and are exactly the nonzero heights of rows whose codec is not `none` |
| InfoRoute.DescendingUnique | src/app/api/info/route.ts:105-106 | two strictly descending sequences with the same members are equal |
| InfoRoute.QualitiesAreTheSortedHeights | src/app/api/info/route.ts:97-106 | the quality heights are the one strictly descending listing of the counted heights, whatever the row order |
| InfoRoute.Qualities | src/app/api/info/route.ts:95-108 | no qualities without a format table; otherwise one per distinct counted height, strictly descending, each labelled `<h>p` |
| InfoRoute.LabelsDistinct | src/app/api/info/route.ts:107 | no two qualities share a label |
| InfoRoute.QualityExample | src/app/api/info/route.ts:95-108 | rows of 720, 1080, 720 (no codec given), 480 and an audio-only 360 give the heights 1080, 720, 480 |
| InfoRoute.SingleItem | src/app/api/info/route.ts:110-118 | the single item's URL falls back to the page URL, its title is the title fallback, and its qualities come from the format table |
| InfoRoute.Shape | src/app/api/info/route.ts:72-119 | a list exactly when the dump is a playlist or has entries, with one item per entry in order and the dump's title; otherwise a single result whose one item is the single item of the dump, with its fallbacks and qualities |
| InfoRoute.ErrorFor | src/app/api/info/route.ts:123-129 | 403 with the login advice exactly when the message carries `Instagram API is not granting access` or `login`; 500 otherwise |
| InfoRoute.Info | src/app/api/info/route.ts:48-131 | 400 exactly when the URL is missing or empty, with no invocation; the invocations are exactly those of the cookie retry, so a second one happens exactly after a cookie lock; the URL last in each; a body exactly when the dump that stands parsed, shaped from it; otherwise 403 exactly when its message carries an info login signature |
| InfoRoute.LinesBecomeItems | src/app/api/info/route.ts:30-89 | a first dump of several lines that all parse is answered after one invocation with a list of one item per line, in line order |
| InfoRoute.ParseFailureIsGeneric | src/app/api/info/route.ts:38-67 | a parse failure on the first dump is not retried and answers 500 |
| InfoRoute.SilentFailureIsGeneric | src/app/api/info/route.ts:42 | a first failure with empty stderr is not retried and answers 500 |
| InfoRoute.UnlockedFailureIsFinal | src/app/api/info/route.ts:59-68 | a first failure without the cookie lock propagates unchanged and decides the status after one invocation |
| InfoRoute.LockedThenFailure | src/app/api/info/route.ts:62-65 | after a cookie lock, the second dump's failure message decides the status, after two invocations |
| InfoRoute.SignInDiverges | src/app/api/info/route.ts:126 | `sign in` is a login signature for the download handler but not for the info handler |
| InfoRoute.SignInDivergence | src/app/api/info/route.ts:123-129 | after a cookie lock, a `sign in` failure is 403 for a download and 500 for an info request |
| SelectionGrid.Without | src/components/modules/SelectionGrid.tsx:30 | filtering removes every occurrence of the index and keeps every other occurrence |
| SelectionGrid.Toggle | src/components/modules/SelectionGrid.tsx:27-32 | a click flips the tile's membership and leaves every other tile's unchanged; an unselected tile is appended at the end, and a selected one is removed entirely |
| SelectionGrid.WithoutConcat | src/components/modules/SelectionGrid.tsx:30 | filtering a concatenation filters each part in place, so the kept indices stay in their original order |
| SelectionGrid.ToggleClosesGap | src/components/modules/SelectionGrid.tsx:27-32 | unselecting the tile at position k of a selection without duplicates leaves the indices before and after it, in order: `s[..k] + s[k + 1..]` |
| SelectionGrid.ToggleKeepsValid | src/components/modules/SelectionGrid.tsx:27-32 | a click on a tile keeps the selection free of duplicates and within the tiles |
| SelectionGrid.ToggleTwice | src/components/modules/SelectionGrid.tsx:27-32 | clicking a tile twice restores which tiles are selected, and restores the very sequence when the tile was not selected |
| SelectionGrid.ToggleAll | src/components/modules/SelectionGrid.tsx:41-47 | select-all clears the selection when its length equals the number of tiles, and otherwise selects every tile in order; either way the result is valid |
| SelectionGrid.FullIffAllSelected | src/components/modules/SelectionGrid.tsx:42-45 | for a valid selection, having as many indices as tiles is the same as every tile being selected |
| SelectionGrid.HandleDownload | src/components/modules/SelectionGrid.tsx:35-39 | the current selection is handed over, the grid closes, and the selection is emptied |
| SelectionGrid.ViewOf | src/components/modules/SelectionGrid.tsx:70-140 | the count shown is the selection's length, the button reads "Deselect All" exactly when that length is the number of tiles, and downloading is disabled exactly when nothing is selected |
| SelectionGrid.ViewMeaning | src/components/modules/SelectionGrid.tsx:70-140 | on a valid selection, "Deselect All" shows exactly when every tile is selected, and downloading is disabled exactly when no tile is |
| SelectionGrid.AfterDownload | src/components/modules/SelectionGrid.tsx:35-47 | after a download nothing is selected, downloading is disabled, and select-all selects every tile |

## Left out

- Process spawning, stream chunk accumulation, and the ordering of `close` and `error` events. Each invocation's exit code, output and written files are given by the oracle.
- The info handler's extractor failing to start. That handler registers no `error` listener, so a launch failure does not reach its catch block.
- `logDebug` file appends and `console` output. They are diagnostics with no effect on responses.
- `randomUUID`. The file id is a parameter.
- `path.join` normalisation. The output template is the directory, `/`, the id and `.%(ext)s`, as text.
- Failures of `existsSync`, `mkdirSync`, `readdirSync` and `unlinkSync`. Only a failed read (an entry with no data) is modelled.
- `JSON.parse` itself, and dumps whose JSON is not an object, or whose fields have other types than the ones read here. The handler would throw on these while reshaping the dump.
- `NextResponse` and `Headers`. Content-Length is the byte count as a number, not its decimal text.
- A rejection without a message (`retryError.message` undefined). Every failure here carries a string message.
- Js.ToLower: lowers ASCII letters only. `toLowerCase` also maps other alphabets, which does not change whether an extension matches the ASCII table.
- DownloadRoute.Write: the order of a listing is abstracted. Entries are listed in the order they were last written, whereas `readdirSync` on POSIX lists names sorted. When several files carry the id, the model may therefore serve a different one than the code would.
- DownloadRoute.ExtName: covers bare entry names without '/'. Directory listings only yield such names.
- Process.ReadOptions: a reference reading covering only the options the handlers pass, not the extractor's whole option parser.
- InfoRoute.Counted: heights are integers. Fractional or `NaN` heights from malformed metadata are not modelled.
- SelectionGrid: the grid keeps its selection when the parent passes a different `items` list. Because the parent is not part of this model, the tile count `n` is fixed, and indices left over from another list are not modelled.
- The grid's open/close prop, thumbnails and animations, `DownloaderCard.tsx`, `QualityModal.tsx`, the page and layout, the loading screen and the background animation are presentation or UI plumbing.

## Findings

| source | as written | input that shows it | evidently intended | confidence | as-written member | corrected member |
|---|---|---|---|---|---|---|
| src/app/api/download/route.ts:124-134 | When extraction fails, the handler returns 403 or 500 without removing files that carry the request's id. Only the file-handling catch (lines 173-181) sweeps them. | The first run writes `<id>.mp4.part` and then exits with code 1 and `ERROR: unable to download video data: HTTP Error 403: Forbidden`. | Every failure path sweeps the files carrying the id, so a failed request leaves no partial output behind. | medium; not executed | DownloadRoute.PartialFileSurvivesFailure | DownloadRoute.DownloadWithSweep |
