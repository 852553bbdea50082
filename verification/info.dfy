/**
 The `/api/info` GET handler: it asks the extractor for a metadata dump
 (with the Chrome cookie store first, without it after a cookie lock), reads
 the dump as one JSON object or as one object per line, and reshapes it into
 a single item with its video qualities or a list of items.

 The extractor is an oracle: `Replies` holds what the first and, if it
 happens, the second invocation print and how they exit. `JSON.parse` is a
 parameter that yields the fields the handler reads, or `None` when it
 throws.
 */
module InfoRoute {
  import opened Js
  import opened Process
  import DownloadRoute

  type Args = seq<string>

  /** One row of the extractor's format table. */
  datatype Format = Format(vcodec: Option<string>, height: Option<int>)

  /** The fields of a parsed dump the handler reads; `kind` is `_type`, and a missing field is `None`. */
  datatype Media = Media(
    kind: Option<string>,
    entries: Option<seq<Media>>,
    id: Option<string>,
    url: Option<string>,
    webpageUrl: Option<string>,
    thumbnail: Option<string>,
    title: Option<string>,
    description: Option<string>,
    ext: Option<string>,
    vcodec: Option<string>,
    formats: Option<seq<Format>>)

  /** `{ _type: 'playlist', entries }`: the object the dump reader builds from a dump of several lines. */
  function PlaylistOf(entries: seq<Media>): Media {
    Media(Some("playlist"), Some(entries), None, None, None, None, None, None, None, None, None)
  }

  /** `JSON.parse`: the parsed object, or `None` when parsing throws. */
  type Parser = string -> Option<Media>

  /** What one invocation of the extractor does: how it exits and what it prints. */
  datatype Reply = Reply(exit: Exit, stdout: string, stderr: string)

  /** The replies of the first and, if it happens, the second invocation. */
  datatype Replies = Replies(first: Reply, second: Reply)

  // ---------------------------------------------------------------------------
  // The extractor invocation (`runYtDlpDump`)
  // ---------------------------------------------------------------------------

  /** The arguments of a metadata dump: dump flags, the cookie store if asked for, then the URL. */
  function DumpArgs(url: string, useCookies: bool): (args: Args)
    ensures |args| == if useCookies then 5 else 3
    ensures args[..2] == ["--dump-json", "--flat-playlist"]
    ensures useCookies ==> args[2..4] == CookieArgs
    ensures args[|args| - 1] == url
  {
    ["--dump-json", "--flat-playlist"] + (if useCookies then CookieArgs else []) + [url]
  }

  /** The outcome of one dump: the parsed object, or the message the promise is rejected with. */
  datatype Dump = Parsed(data: Media) | Failed(message: string)

  const ParseFailed := "Failed to parse JSON output"

  /** `lines.map(JSON.parse)`: every line parsed, in order, or `None` as soon as one line does not parse. */
  function ParseAll(lines: seq<string>, parse: Parser): (r: Option<seq<Media>>)
    ensures r.Some? <==> forall k :: 0 <= k < |lines| ==> parse(lines[k]).Some?
    ensures r.Some? ==> |r.value| == |lines| && forall k :: 0 <= k < |lines| ==> r.value[k] == parse(lines[k]).value
  {
    if |lines| == 0 then Some([])
    else
      var head := parse(lines[0]);
      var tail := ParseAll(lines[1..], parse);
      if head.None? || tail.None? then None else Some([head.value] + tail.value)
  }

  /** The lines of a dump: its trimmed text split at line feeds. */
  function Lines(stdout: string): seq<string> {
    Split(Trim(stdout), '\n')
  }

  /**
   The `close` handler of a dump: on exit code 0 a dump of several lines is a
   playlist of one entry per line and any other dump is one object; anything
   that does not parse rejects with the parse message. Any other exit rejects
   with the failure message.
   */
  function RunDump(r: Reply, parse: Parser): (d: Dump)
    ensures r.exit != Code(0) ==> d == Failed(FailureMessage(r.exit, r.stderr))
    ensures r.exit == Code(0) && d.Failed? ==> d.message == ParseFailed
    ensures r.exit == Code(0) && |Lines(r.stdout)| > 1 ==>
      var lines := Lines(r.stdout);
      && (d.Parsed? <==> forall k :: 0 <= k < |lines| ==> parse(lines[k]).Some?)
      && (d.Parsed? ==>
            && d.data.kind == Some("playlist") && d.data.entries.Some?
            && d.data == PlaylistOf(d.data.entries.value)
            && |d.data.entries.value| == |lines|
            && forall k :: 0 <= k < |lines| ==> d.data.entries.value[k] == parse(lines[k]).value)
    ensures r.exit == Code(0) && |Lines(r.stdout)| <= 1 ==>
      (d.Parsed? <==> parse(r.stdout).Some?) && (d.Parsed? ==> d.data == parse(r.stdout).value)
  {
    if r.exit == Code(0) then
      var lines := Lines(r.stdout);
      if |lines| > 1 then
        var entries := ParseAll(lines, parse);
        if entries.Some? then Parsed(PlaylistOf(entries.value)) else Failed(ParseFailed)
      else
        var data := parse(r.stdout);
        if data.Some? then Parsed(data.value) else Failed(ParseFailed)
    else Failed(FailureMessage(r.exit, r.stderr))
  }

  // ---------------------------------------------------------------------------
  // The retry
  // ---------------------------------------------------------------------------

  /** The dump the handler goes on with and the argument vectors the extractor was invoked with, in order. */
  datatype Fetch = Fetch(result: Dump, invoked: seq<Args>)

  /** The first dump failed because Chrome holds the lock on its cookie database. */
  predicate CookieLocked(d: Dump) {
    d.Failed? && Includes(d.message, CookieLock)
  }

  /** A dump with the cookie store; when it fails on the cookie lock, one more without it, whose result stands. */
  function FetchWithRetry(url: string, replies: Replies, parse: Parser): (f: Fetch)
    ensures 1 <= |f.invoked| <= 2 && f.invoked[0] == DumpArgs(url, true)
    ensures |f.invoked| == 2 <==> CookieLocked(RunDump(replies.first, parse))
    ensures |f.invoked| == 2 ==> f.invoked[1] == DumpArgs(url, false) && f.result == RunDump(replies.second, parse)
    ensures |f.invoked| == 1 ==> f.result == RunDump(replies.first, parse)
  {
    var first := RunDump(replies.first, parse);
    if CookieLocked(first) then Fetch(RunDump(replies.second, parse), [DumpArgs(url, true), DumpArgs(url, false)])
    else Fetch(first, [DumpArgs(url, true)])
  }

  // ---------------------------------------------------------------------------
  // Reshaping the dump
  // ---------------------------------------------------------------------------

  /** `{ label, height }`; `text` holds the label (`label` is a Dafny keyword). */
  datatype Quality = Quality(text: string, height: int)

  /** The fields only a single item has. */
  datatype Detail = Detail(title: string, qualities: seq<Quality>)

  /** One item of the response; `originalUrl` is `original_url`. */
  datatype Item = Item(
    id: Option<string>,
    url: Option<string>,
    thumbnail: Option<string>,
    isVideo: bool,
    originalUrl: Option<string>,
    detail: Option<Detail>)

  /** `{ type: 'single', items }` or `{ type: 'list', title, items }`. */
  datatype Body =
    | Single(items: seq<Item>)
    | List(title: Option<string>, items: seq<Item>)

  /** A playlist, or an object with at least one entry. */
  predicate IsList(data: Media) {
    data.kind == Some("playlist") || (data.entries.Some? && |data.entries.value| > 0)
  }

  /** `ext === 'mp4' || vcodec !== 'none'`: a missing codec counts as video. */
  predicate IsVideo(m: Media) {
    m.ext == Some("mp4") || m.vcodec != Some("none")
  }

  /** The item a list shows for one entry. */
  function ListItem(entry: Media): (it: Item)
    ensures it.id == entry.id && it.thumbnail == entry.thumbnail && it.originalUrl == entry.webpageUrl
    ensures Truthy(entry.url) ==> it.url == entry.url
    ensures !Truthy(entry.url) ==> it.url == entry.webpageUrl
    ensures it.isVideo <==> entry.ext == Some("mp4") || entry.vcodec != Some("none")
    ensures it.detail.None?
  {
    Item(entry.id, Or(entry.url, entry.webpageUrl), entry.thumbnail, IsVideo(entry), entry.webpageUrl, None)
  }

  /** `title || description || 'Instagram Reel'`. */
  function TitleOf(data: Media): (t: string)
    ensures t != ""
    ensures Truthy(data.title) ==> t == data.title.value
    ensures !Truthy(data.title) && Truthy(data.description) ==> t == data.description.value
    ensures !Truthy(data.title) && !Truthy(data.description) ==> t == "Instagram Reel"
  {
    if Truthy(data.title) then data.title.value
    else if Truthy(data.description) then data.description.value
    else "Instagram Reel"
  }

  /** A format row that contributes its height: a video codec (or none given) and a height that is present and not 0. */
  predicate Counted(f: Format) {
    f.vcodec != Some("none") && f.height.Some? && f.height.value != 0
  }

  predicate StrictlyDescending(s: seq<int>) {
    forall i, j :: 0 <= i < j < |s| ==> s[i] > s[j]
  }

  /** `h` added to a strictly descending sequence, keeping it strictly descending and free of repeats. */
  function Insert(h: int, s: seq<int>): (r: seq<int>)
    requires StrictlyDescending(s)
    ensures StrictlyDescending(r)
    ensures forall x :: x in r <==> x == h || x in s
  {
    if |s| == 0 then [h]
    else if h > s[0] then [h] + s
    else if h == s[0] then s
    else
      DescendingHead(s);
      var rest := Insert(h, s[1..]);
      var r := [s[0]] + rest;
      forall i, j | 0 <= i < j < |r| ensures r[i] > r[j] {
        assert r[j] == rest[j - 1] && rest[j - 1] in rest;
        if i > 0 {
          assert r[i] == rest[i - 1];
        }
      }
      r
  }

  /** Some counted row of `formats` has height `h`. */
  predicate CountedHeight(formats: seq<Format>, h: int) {
    exists k :: 0 <= k < |formats| && Counted(formats[k]) && formats[k].height.value == h
  }

  /** The set of heights, sorted from the tallest down. */
  function Heights(formats: seq<Format>): (r: seq<int>)
    ensures StrictlyDescending(r)
    ensures forall h :: h in r <==> CountedHeight(formats, h)
  {
    if |formats| == 0 then []
    else
      var rest := Heights(formats[1..]);
      assert forall h :: CountedHeight(formats, h) <==>
        (Counted(formats[0]) && formats[0].height.value == h) || CountedHeight(formats[1..], h) by {
        forall h | CountedHeight(formats, h)
          ensures (Counted(formats[0]) && formats[0].height.value == h) || CountedHeight(formats[1..], h)
        {
          var k :| 0 <= k < |formats| && Counted(formats[k]) && formats[k].height.value == h;
          if k > 0 {
            assert formats[1..][k - 1] == formats[k];
          }
        }
        forall h | CountedHeight(formats[1..], h)
          ensures CountedHeight(formats, h)
        {
          var k :| 0 <= k < |formats[1..]| && Counted(formats[1..][k]) && formats[1..][k].height.value == h;
          assert formats[k + 1] == formats[1..][k];
        }
      }
      if Counted(formats[0]) then Insert(formats[0].height.value, rest) else rest
  }

  /** The quality list of a single item: one entry per distinct counted height, tallest first, labelled `<h>p`. */
  function Qualities(formats: Option<seq<Format>>): (qs: seq<Quality>)
    ensures formats.None? ==> qs == []
    ensures forall k :: 0 <= k < |qs| ==> qs[k].text == IntToString(qs[k].height) + "p"
    ensures forall i, j :: 0 <= i < j < |qs| ==> qs[i].height > qs[j].height
    ensures formats.Some? ==> forall k :: 0 <= k < |qs| ==> CountedHeight(formats.value, qs[k].height)
    ensures formats.Some? ==> forall k :: 0 <= k < |formats.value| && Counted(formats.value[k]) ==>
      exists j :: 0 <= j < |qs| && qs[j].height == formats.value[k].height.value
  {
    if formats.None? then []
    else
      var hs := Heights(formats.value);
      var qs := seq(|hs|, k requires 0 <= k < |hs| => Quality(IntToString(hs[k]) + "p", hs[k]));
      forall k | 0 <= k < |formats.value| && Counted(formats.value[k])
        ensures exists j :: 0 <= j < |qs| && qs[j].height == formats.value[k].height.value
      {
        var h := formats.value[k].height.value;
        assert CountedHeight(formats.value, h);
        var j :| 0 <= j < |hs| && hs[j] == h;
        assert qs[j].height == h;
      }
      qs
  }

  /** The single item: its fields with their fallbacks, and the quality list. */
  function SingleItem(data: Media): (it: Item)
    ensures it.id == data.id && it.thumbnail == data.thumbnail && it.originalUrl == data.webpageUrl
    ensures it.url == Or(data.url, data.webpageUrl)
    ensures it.isVideo <==> data.ext == Some("mp4") || data.vcodec != Some("none")
    ensures it.detail == Some(Detail(TitleOf(data), Qualities(data.formats)))
  {
    Item(data.id, Or(data.url, data.webpageUrl), data.thumbnail, IsVideo(data), data.webpageUrl,
      Some(Detail(TitleOf(data), Qualities(data.formats))))
  }

  /** The entries a list maps over: `data.entries || []`. */
  function EntriesOf(data: Media): seq<Media> {
    if data.entries.Some? then data.entries.value else []
  }

  /** The response body for a dump: a list with one item per entry, in order, or a single item. */
  function Shape(data: Media): (b: Body)
    ensures b.List? <==> IsList(data)
    ensures b.List? ==>
      && b.title == data.title
      && |b.items| == |EntriesOf(data)|
      && forall k :: 0 <= k < |b.items| ==> b.items[k] == ListItem(EntriesOf(data)[k])
    ensures b.Single? ==> b.items == [SingleItem(data)]
  {
    if IsList(data) then
      var entries := EntriesOf(data);
      List(data.title, seq(|entries|, k requires 0 <= k < |entries| => ListItem(entries[k])))
    else Single([SingleItem(data)])
  }

  // ---------------------------------------------------------------------------
  // The handler
  // ---------------------------------------------------------------------------

  datatype Response =
    | Ok(body: Body)
    | JsonError(status: nat, error: string)
  {
    function Status(): nat {
      if JsonError? then status else 200
    }
  }

  /** The response and the argument vectors the extractor was invoked with, in order. */
  datatype Outcome = Outcome(response: Response, invoked: seq<Args>)

  const UrlRequired := "URL is required"
  const LoginAdvice := "Login required. Please close Chrome and try again."
  const FetchFailed := "Failed to fetch media info"

  /** The info handler's login-required signatures; unlike the download handler's, `sign in` is not one of them. */
  predicate LoginSignature(m: string) {
    Includes(m, NotGranting) || Includes(m, Login)
  }

  /** The catch block: 403 with the login advice on a login signature, 500 otherwise. */
  function ErrorFor(message: string): (r: Response)
    ensures r.JsonError? && r.status in {403, 500}
    ensures r.status == 403 <==> LoginSignature(message)
    ensures r.error == if r.status == 403 then LoginAdvice else FetchFailed
  {
    if LoginSignature(message) then JsonError(403, LoginAdvice) else JsonError(500, FetchFailed)
  }

  function Info(url: Option<string>, replies: Replies, parse: Parser): (o: Outcome)
    ensures o.response.Status() == 400 <==> !Truthy(url)
    ensures !Truthy(url) ==> o.invoked == []
    ensures o.response.Status() in {200, 400, 403, 500}
    ensures Truthy(url) ==> 1 <= |o.invoked| <= 2 && o.invoked[0] == DumpArgs(url.value, true)
    ensures Truthy(url) ==> forall a :: a in o.invoked ==> |a| > 0 && a[|a| - 1] == url.value
    ensures |o.invoked| == 2 ==> o.invoked[1] == DumpArgs(url.value, false) && CookieLocked(RunDump(replies.first, parse))
    ensures Truthy(url) ==> o.invoked == FetchWithRetry(url.value, replies, parse).invoked
    ensures o.response.Ok? ==> Truthy(url) && FetchWithRetry(url.value, replies, parse).result.Parsed?
    ensures Truthy(url) ==> var d := FetchWithRetry(url.value, replies, parse).result;
      && (d.Parsed? ==> o.response == Ok(Shape(d.data)))
      && (d.Failed? ==> (o.response.Status() == 403 <==> LoginSignature(d.message)))
  {
    if !Truthy(url) then Outcome(JsonError(400, UrlRequired), [])
    else
      var f := FetchWithRetry(url.value, replies, parse);
      match f.result
      case Parsed(data) => Outcome(Ok(Shape(data)), f.invoked)
      case Failed(message) => Outcome(ErrorFor(message), f.invoked)
  }

  // ---------------------------------------------------------------------------
  // Properties
  // ---------------------------------------------------------------------------

  /** The extractor reads a dump request as the two dump flags and the URL, with the Chrome cookie store exactly when asked for. */
  lemma ExtractorReadsDump(url: string, useCookies: bool)
    requires !LooksLikeOption(url)
    ensures ReadOptions(DumpArgs(url, useCookies)) == NoOptions.(
      cookiesFrom := if useCookies then Some("chrome") else None,
      dumpJson := true, flatPlaylist := true, urls := [url])
  {
    ReadUrl(url);
    var tail := if useCookies then CookieArgs + [url] else [url];
    if useCookies {
      ReadValue("--cookies-from-browser", "chrome", [url]);
      assert CookieArgs + [url] == ["--cookies-from-browser", "chrome"] + [url];
    }
    ReadFlag("--flat-playlist", tail);
    ReadFlag("--dump-json", ["--flat-playlist"] + tail);
    assert DumpArgs(url, useCookies) == ["--dump-json"] + (["--flat-playlist"] + tail);
  }

  /** However much white space surrounds it, a dump of two or more lines is split back into exactly those lines. */
  lemma SplitsIntoLines(stdout: string, lines: seq<string>)
    requires |lines| > 1 && Trim(stdout) == Join(lines, '\n')
    requires forall k :: 0 <= k < |lines| ==> '\n' !in lines[k]
    ensures Lines(stdout) == lines
  {
    SplitJoin(lines, '\n');
  }

  /**
   A first dump of several lines that all parse is answered with a list of
   one item per line, in line order, after a single invocation.
   */
  lemma LinesBecomeItems(url: Option<string>, replies: Replies, parse: Parser, lines: seq<string>)
    requires Truthy(url) && replies.first.exit == Code(0)
    requires Lines(replies.first.stdout) == lines && |lines| > 1
    requires forall k :: 0 <= k < |lines| ==> parse(lines[k]).Some?
    ensures var o := Info(url, replies, parse);
      && o.invoked == [DumpArgs(url.value, true)]
      && o.response.Ok? && o.response.body.List?
      && o.response.body.title.None?
      && |o.response.body.items| == |lines|
      && forall k :: 0 <= k < |lines| ==> o.response.body.items[k] == ListItem(parse(lines[k]).value)
  {
  }

  /** The largest member of a strictly descending sequence comes first, and the rest are the other members. */
  lemma DescendingHead(s: seq<int>)
    requires StrictlyDescending(s) && |s| > 0
    ensures forall x :: x in s ==> x <= s[0]
    ensures forall x :: x in s[1..] <==> x in s && x != s[0]
  {
    forall x | x in s ensures x <= s[0] {
      var i :| 0 <= i < |s| && s[i] == x;
    }
    forall x | x in s && x != s[0] ensures x in s[1..] {
      var i :| 0 <= i < |s| && s[i] == x;
      assert s[1..][i - 1] == x;
    }
  }

  lemma HeadIsMember(s: seq<int>)
    ensures |s| > 0 ==> s[0] in s
  {
  }

  /** A strictly descending sequence is determined by its members: sorting a set has one answer. */
  lemma {:induction false} DescendingUnique(a: seq<int>, b: seq<int>)
    requires StrictlyDescending(a) && StrictlyDescending(b)
    requires forall x :: x in a <==> x in b
    ensures a == b
    decreases |a|
  {
    HeadIsMember(a);
    HeadIsMember(b);
    if |a| > 0 && |b| > 0 {
      DescendingHead(a);
      DescendingHead(b);
      assert a[0] in b && b[0] in a;
      assert a[0] == b[0];
      assert StrictlyDescending(a[1..]) && StrictlyDescending(b[1..]);
      DescendingUnique(a[1..], b[1..]);
      assert a == [a[0]] + a[1..] && b == [b[0]] + b[1..];
    }
  }

  /** The quality list is the one strictly descending sequence of the counted heights, so the row order does not matter. */
  lemma QualitiesAreTheSortedHeights(formats: seq<Format>, sorted: seq<int>)
    requires StrictlyDescending(sorted)
    requires forall h :: h in sorted <==> CountedHeight(formats, h)
    ensures Heights(formats) == sorted
  {
    DescendingUnique(Heights(formats), sorted);
  }

  /** Different heights get different labels. */
  lemma LabelsDistinct(formats: Option<seq<Format>>)
    ensures var qs := Qualities(formats);
      forall i, j :: 0 <= i < j < |qs| ==> qs[i].text != qs[j].text
  {
    var qs := Qualities(formats);
    forall i, j | 0 <= i < j < |qs|
      ensures qs[i].text != qs[j].text
    {
      var a := IntToString(qs[i].height);
      var b := IntToString(qs[j].height);
      if a + "p" == b + "p" {
        assert a == (a + "p")[..|a|] == (b + "p")[..|b|] == b;
        IntToStringInjective(qs[i].height, qs[j].height);
      }
    }
  }

  /** A video offered as 720, 1080, 720 and 480 rows, plus an audio-only row, yields `1080p`, `720p`, `480p`. */
  lemma QualityExample(fs: seq<Format>)
    requires fs == [Format(Some("avc1"), Some(720)), Format(Some("avc1"), Some(1080)),
                    Format(None, Some(720)), Format(Some("avc1"), Some(480)), Format(Some("none"), Some(360))]
    ensures Heights(fs) == [1080, 720, 480]
  {
    forall h ensures h in [1080, 720, 480] <==> CountedHeight(fs, h) {
      if h in [1080, 720, 480] {
        var k := if h == 1080 then 1 else if h == 720 then 0 else 3;
        assert Counted(fs[k]) && fs[k].height.value == h;
      }
    }
    QualitiesAreTheSortedHeights(fs, [1080, 720, 480]);
  }

  /** A parse failure on the first dump is not retried and answers 500, not 403. */
  lemma ParseFailureIsGeneric(url: Option<string>, replies: Replies, parse: Parser)
    requires Truthy(url) && replies.first.exit == Code(0)
    requires RunDump(replies.first, parse).Failed?
    ensures Info(url, replies, parse) == Outcome(JsonError(500, FetchFailed), [DumpArgs(url.value, true)])
  {
    ParseFailedMatchesNothing();
    UnlockedFailureIsFinal(url, replies, parse);
  }

  /** The parse message carries neither the cookie-lock signature nor a login signature. */
  lemma ParseFailedMatchesNothing()
    ensures !Includes(ParseFailed, CookieLock) && !LoginSignature(ParseFailed)
  {
    assert 'C' !in ParseFailed && 'g' !in ParseFailed;
    assert CookieLock[0] == 'C' && NotGranting[5] == 'g' && Login[2] == 'g';
    MissingCharExcludes(ParseFailed, CookieLock, 'C');
    MissingCharExcludes(ParseFailed, NotGranting, 'g');
    MissingCharExcludes(ParseFailed, Login, 'g');
  }

  /** A first dump that fails on anything but the cookie lock is the last one; its message decides the status. */
  lemma UnlockedFailureIsFinal(url: Option<string>, replies: Replies, parse: Parser)
    requires Truthy(url)
    requires RunDump(replies.first, parse).Failed? && !CookieLocked(RunDump(replies.first, parse))
    ensures Info(url, replies, parse) == Outcome(ErrorFor(RunDump(replies.first, parse).message), [DumpArgs(url.value, true)])
  {
  }

  /** An extractor failure with empty stderr is not retried and answers 500. */
  lemma SilentFailureIsGeneric(url: Option<string>, replies: Replies, parse: Parser)
    requires Truthy(url) && replies.first.exit != Code(0) && replies.first.stderr == ""
    ensures Info(url, replies, parse) == Outcome(JsonError(500, FetchFailed), [DumpArgs(url.value, true)])
  {
    SynthesizedMessageMatchesNothing(replies.first.exit);
    UnlockedFailureIsFinal(url, replies, parse);
  }

  /** `sign in` is a login signature for the download handler and not for this one. */
  lemma SignInDiverges()
    ensures DownloadRoute.LoginSignature(SignIn) && !LoginSignature(SignIn)
  {
    assert OccursAt(SignIn, SignIn, 0);
    assert NotGranting[0] == 'I' && Login[0] == 'l';
    assert 'I' !in SignIn && 'l' !in SignIn;
    MissingCharExcludes(SignIn, NotGranting, 'I');
    MissingCharExcludes(SignIn, Login, 'l');
  }

  /**
   A cookie lock followed by a `sign in` failure: the download handler asks
   the user to log in (403), the info handler reports a plain failure (500).
   */
  lemma SignInDivergence(q: DownloadRoute.Query, env: DownloadRoute.Env, url: Option<string>, parse: Parser)
    requires Truthy(q.url) && Truthy(url)
    requires env.replies == DownloadRoute.Replies(
      DownloadRoute.Exited(Code(1), CookieLock, []), DownloadRoute.Exited(Code(1), SignIn, []))
    ensures DownloadRoute.Download(q, env).response.Status() == 403
    ensures Info(url, Replies(Reply(Code(1), "", CookieLock), Reply(Code(1), "", SignIn)), parse).response
      == JsonError(500, FetchFailed)
  {
    SignInDiverges();
    assert OccursAt(CookieLock, CookieLock, 0);
    assert DownloadRoute.RejectMessage(env.replies.first) == CookieLock;
    assert DownloadRoute.RejectMessage(env.replies.second) == SignIn;
    DownloadRoute.LockedThenLoginSignature(q, env);
    LockedThenFailure(url, Replies(Reply(Code(1), "", CookieLock), Reply(Code(1), "", SignIn)), parse);
  }

  /** After a cookie lock on the first dump, a failed second dump decides the status by its own message. */
  lemma LockedThenFailure(url: Option<string>, replies: Replies, parse: Parser)
    requires Truthy(url)
    requires replies.first.exit != Code(0) && Includes(FailureMessage(replies.first.exit, replies.first.stderr), CookieLock)
    requires replies.second.exit != Code(0)
    ensures Info(url, replies, parse) == Outcome(
      ErrorFor(FailureMessage(replies.second.exit, replies.second.stderr)),
      [DumpArgs(url.value, true), DumpArgs(url.value, false)])
  {
  }
}
