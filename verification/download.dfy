/**
 The `/api/download` GET handler: it builds the extractor's argument vector
 from the query, runs the extractor under the two-tier cookie retry ladder,
 then serves the file the extractor wrote into the temporary directory and
 deletes it.

 The extractor is an oracle: `Replies` holds what the first and, if it
 happens, the second invocation do, including the files each one writes.
 The temporary directory is a sequence of entries; the lemmas about cleanup
 assume its names distinct (`DistinctNames`), as a real directory's are, and
 the writes keep them so. A written file replaces any file of the same name. The order of the listing
 is abstracted: entries are listed in the order they were last written. The
 random file id is a parameter.
 */
module DownloadRoute {
  import opened Js
  import opened Process

  newtype byte = x: int | 0 <= x < 0x100

  type Args = seq<string>

  /** The query parameters of one request; `None` for a parameter that is absent. */
  datatype Query = Query(
    url: Option<string>,
    format: Option<string>,
    quality: Option<string>,
    playlistItems: Option<string>)

  /** A directory entry; `data` is `None` when reading the file fails. */
  datatype Entry = Entry(name: string, data: Option<seq<byte>>)

  type Dir = seq<Entry>

  /** What one invocation of the extractor does: it exits, having written some files, or it cannot be started. */
  datatype Run =
    | Exited(exit: Exit, stderr: string, written: Dir)
    | LaunchFailed(message: string)

  /** The runs the first and the second invocation would produce. */
  datatype Replies = Replies(first: Run, second: Run)

  /** Everything outside the request: the fresh file id, the temporary directory's path and contents (`None` when it does not exist yet), and the extractor. */
  datatype Env = Env(fileId: string, tmpDir: string, tmp: Option<Dir>, replies: Replies)

  datatype Response =
    | JsonError(status: nat, error: string)
    | Attachment(body: seq<byte>, disposition: string, contentType: string, contentLength: nat)
  {
    function Status(): nat {
      if JsonError? then status else 200
    }
  }

  /** The response, the argument vectors the extractor was invoked with, in order, and the temporary directory afterwards. */
  datatype Outcome = Outcome(response: Response, invoked: seq<Args>, tmp: Option<Dir>)

  const UrlRequired := "URL is required"
  const LoginAdvice := "This post requires login. Please close your Chrome browser and try again so the app can access your cookies."
  const ProcessFailed := "Failed to process download"

  // ---------------------------------------------------------------------------
  // The extractor invocation (`runYtDlp`)
  // ---------------------------------------------------------------------------

  /** `runYtDlp` resolves exactly when the process exits with code 0. */
  predicate Succeeded(r: Run) {
    r.Exited? && r.exit == Code(0)
  }

  function Written(r: Run): Dir {
    if r.Exited? then r.written else []
  }

  // ---------------------------------------------------------------------------
  // The temporary directory
  // ---------------------------------------------------------------------------

  /** No two entries of a directory share a name. */
  predicate DistinctNames(dir: Dir) {
    forall i, j :: 0 <= i < j < |dir| ==> dir[i].name != dir[j].name
  }

  /** The entries of `dir` with a name other than `name`, in order. */
  function Drop(dir: Dir, name: string): (r: Dir)
    ensures forall x :: x in r <==> x in dir && x.name != name
  {
    if |dir| == 0 then []
    else (if dir[0].name == name then [] else [dir[0]]) + Drop(dir[1..], name)
  }

  /** Writing the file `e`: it replaces any file of the same name. */
  function Put(dir: Dir, e: Entry): (r: Dir)
    ensures forall x :: x in r <==> x == e || (x in dir && x.name != e.name)
  {
    Drop(dir, e.name) + [e]
  }

  /** Writing `files` one after the other. */
  function Write(dir: Dir, files: Dir): (r: Dir)
    ensures forall x :: x in r ==> x in dir || x in files
    ensures forall x :: x in dir && (forall k :: 0 <= k < |files| ==> files[k].name != x.name) ==> x in r
    ensures forall k :: 0 <= k < |files| && (forall j :: k < j < |files| ==> files[j].name != files[k].name) ==> files[k] in r
    decreases |files|
  {
    if |files| == 0 then dir
    else
      var rest := files[1..];
      var r := Write(Put(dir, files[0]), rest);
      assert forall k :: 0 <= k < |rest| ==> rest[k] == files[k + 1];
      assert forall x :: x in rest ==> x in files;
      forall k | 0 <= k < |files| && (forall j :: k < j < |files| ==> files[j].name != files[k].name)
        ensures files[k] in r
      {
        if k == 0 {
          assert forall j :: 0 <= j < |rest| ==> rest[j].name != files[0].name;
        } else {
          assert files[k] == rest[k - 1];
          assert forall j :: k - 1 < j < |rest| ==> rest[j].name != rest[k - 1].name;
        }
      }
      r
  }

  /** Writing a single file into an empty directory, or over the one file of the same name, leaves just that file. */
  lemma WriteOne(dir: Dir, e: Entry)
    requires dir == [] || (|dir| == 1 && dir[0].name == e.name)
    ensures Write(dir, [e]) == [e]
  {
    assert [e][1..] == [];
    if |dir| == 1 {
      assert dir[1..] == [];
    }
  }

  /** The entries after the first of a directory form a directory, none of them named like the first. */
  lemma DistinctTail(dir: Dir)
    requires DistinctNames(dir) && |dir| > 0
    ensures DistinctNames(dir[1..])
    ensures forall x :: x in dir[1..] ==> x.name != dir[0].name
  {
    var rest := dir[1..];
    assert forall k :: 0 <= k < |rest| ==> rest[k] == dir[k + 1];
  }

  /** An entry named unlike every entry of a directory can be listed in front of it. */
  lemma DistinctCons(e: Entry, dir: Dir)
    requires DistinctNames(dir) && forall x :: x in dir ==> x.name != e.name
    ensures DistinctNames([e] + dir)
  {
    var r := [e] + dir;
    forall i, j | 0 <= i < j < |r| ensures r[i].name != r[j].name {
      assert r[j] == dir[j - 1] && r[j] in dir;
      if i > 0 {
        assert r[i] == dir[i - 1];
      }
    }
  }

  /** Filtering keeps names distinct. */
  lemma {:induction false} DropKeepsDistinct(dir: Dir, name: string)
    requires DistinctNames(dir)
    ensures DistinctNames(Drop(dir, name))
  {
    if |dir| > 0 {
      DistinctTail(dir);
      DropKeepsDistinct(dir[1..], name);
      if dir[0].name != name {
        DistinctCons(dir[0], Drop(dir[1..], name));
      }
    }
  }

  /** Writing a file keeps names distinct. */
  lemma PutKeepsDistinct(dir: Dir, e: Entry)
    requires DistinctNames(dir)
    ensures DistinctNames(Put(dir, e))
  {
    var d := Drop(dir, e.name);
    DropKeepsDistinct(dir, e.name);
    var r := d + [e];
    forall i, j | 0 <= i < j < |r| ensures r[i].name != r[j].name {
      assert r[i] == d[i] && r[i] in d;
      if j < |d| {
        assert r[j] == d[j];
      }
    }
  }

  /** Writing files keeps names distinct: a directory stays a directory. */
  lemma {:induction false} WriteKeepsDistinct(dir: Dir, files: Dir)
    requires DistinctNames(dir)
    ensures DistinctNames(Write(dir, files))
    decreases |files|
  {
    if |files| > 0 {
      PutKeepsDistinct(dir, files[0]);
      WriteKeepsDistinct(Put(dir, files[0]), files[1..]);
    }
  }

  /** The message `runYtDlp` rejects with. */
  function RejectMessage(r: Run): (m: string)
    requires !Succeeded(r)
    ensures r.Exited? && r.stderr != "" ==> m == r.stderr
    ensures r.Exited? && r.stderr == "" ==> m == ExitPrefix + ExitText(r.exit)
    ensures r.LaunchFailed? ==> m == r.message
  {
    match r
    case Exited(e, err, _) => FailureMessage(e, err)
    case LaunchFailed(msg) => msg
  }

  /** The run failed because Chrome holds the lock on its cookie database. */
  predicate CookieLocked(r: Run) {
    !Succeeded(r) && Includes(RejectMessage(r), CookieLock)
  }

  /** The download handler's login-required signatures. */
  predicate LoginSignature(m: string) {
    Includes(m, NotGranting) || Includes(m, SignIn) || Includes(m, Login)
  }

  // ---------------------------------------------------------------------------
  // Argument building
  // ---------------------------------------------------------------------------

  datatype MediaKind = Video | Audio | Image

  /** `format || 'mp4'` dispatched by the switch: anything but `mp3` and `jpg` is video. */
  function KindOf(format: Option<string>): MediaKind {
    var f := if Truthy(format) then format.value else "mp4";
    if f == "mp3" then Audio else if f == "jpg" then Image else Video
  }

  /** The download name without its extension. */
  function Stem(kind: MediaKind): string {
    match kind
    case Video => "instagram_video"
    case Audio => "instagram_audio"
    case Image => "instagram_image"
  }

  /** The extension of the default download name. */
  function DefaultExt(kind: MediaKind): string {
    match kind
    case Video => "mp4"
    case Audio => "mp3"
    case Image => "jpg"
  }

  /** `instagram_video.mp4`, `instagram_audio.mp3` or `instagram_image.jpg`. */
  function DefaultName(kind: MediaKind): string {
    Stem(kind) + "." + DefaultExt(kind)
  }

  function DefaultType(kind: MediaKind): string {
    match kind
    case Video => "video/mp4"
    case Audio => "audio/mpeg"
    case Image => "image/jpeg"
  }

  /** The output path pattern; the extractor substitutes the extension it chooses. */
  function OutputTemplate(tmpDir: string, fileId: string): string {
    tmpDir + "/" + fileId + ".%(ext)s"
  }

  /** Best video and audio no taller than the cap, else the best single stream no taller than it. */
  function FormatSelector(quality: string): string {
    "bestvideo[height<=" + quality + "]+bestaudio/best[height<=" + quality + "]"
  }

  function BaseArgs(kind: MediaKind, quality: Option<string>, template: string, url: string): (args: Args)
    ensures |args| >= 3 && args[|args| - 3..] == ["-o", template, url]
  {
    match kind
    case Audio => ["-x", "--audio-format", "mp3", "-o", template, url]
    case Image => ["-o", template, url]
    case Video =>
      var selector := if Truthy(quality) then FormatSelector(quality.value) else "best";
      ["-f", selector, "-o", template, url]
  }

  /**
   The playlist step: pop the last argument, push `--playlist-items` and the
   selector, then push the popped argument back if it is truthy.
   */
  function WithPlaylistItems(args: Args, items: Option<string>): (r: Args)
    ensures !Truthy(items) ==> r == args
    ensures Truthy(items) && |args| > 0 && args[|args| - 1] != "" ==>
      && |r| == |args| + 2
      && r[..|args| - 1] == args[..|args| - 1]
      && r[|r| - 3..|r| - 1] == ["--playlist-items", items.value]
      && r[|r| - 1] == args[|args| - 1]
  {
    if !Truthy(items) then args
    else
      var kept := if |args| > 0 then args[..|args| - 1] else [];
      var popped: Option<string> := if |args| > 0 then Some(args[|args| - 1]) else None;
      kept + ["--playlist-items", items.value] + (if Truthy(popped) then [popped.value] else [])
  }

  /** The arguments of the second attempt; the first attempt prepends `CookieArgs`. */
  function RequestArgs(q: Query, template: string): (args: Args)
    requires Truthy(q.url)
    ensures |args| >= 3 && args[|args| - 1] == q.url.value
  {
    WithPlaylistItems(BaseArgs(KindOf(q.format), q.quality, template, q.url.value), q.playlistItems)
  }

  // ---------------------------------------------------------------------------
  // The retry ladder
  // ---------------------------------------------------------------------------

  datatype Extraction =
    | Extracted(invoked: seq<Args>, dir: Dir)
    | Refused(status: nat, invoked: seq<Args>, dir: Dir)

  /**
   Attempt 1 with the Chrome cookie store; attempt 2 without it, only when
   attempt 1 failed on the cookie lock. A failed attempt 2 is a 403 when its
   message carries a login signature; every other failure is a 500.
   */
  function Extract(args: Args, replies: Replies, dir: Dir): (x: Extraction)
    ensures 1 <= |x.invoked| <= 2 && x.invoked[0] == CookieArgs + args
    ensures |x.invoked| == 2 <==> CookieLocked(replies.first)
    ensures |x.invoked| == 2 ==> x.invoked[1] == args
    ensures x.Extracted? <==> Succeeded(replies.first) || (CookieLocked(replies.first) && Succeeded(replies.second))
    ensures x.Refused? && |x.invoked| == 1 ==> x.status == 500
    ensures x.Refused? && |x.invoked| == 2 ==>
      x.status in {403, 500} && (x.status == 403 <==> LoginSignature(RejectMessage(replies.second)))
    ensures |x.invoked| == 1 ==> x.dir == Write(dir, Written(replies.first))
    ensures |x.invoked| == 2 ==> x.dir == Write(Write(dir, Written(replies.first)), Written(replies.second))
  {
    var first := replies.first;
    var tier1 := CookieArgs + args;
    var dir1 := Write(dir, Written(first));
    if Succeeded(first) then Extracted([tier1], dir1)
    else if !Includes(RejectMessage(first), CookieLock) then Refused(500, [tier1], dir1)
    else
      var second := replies.second;
      var dir2 := Write(dir1, Written(second));
      if Succeeded(second) then Extracted([tier1, args], dir2)
      else if LoginSignature(RejectMessage(second)) then Refused(403, [tier1, args], dir2)
      else Refused(500, [tier1, args], dir2)
  }

  // ---------------------------------------------------------------------------
  // Artifact lookup, cleanup and response headers
  // ---------------------------------------------------------------------------

  /** `files.find(f => f.startsWith(prefix))`, as an index. */
  function FindFirst(dir: Dir, prefix: string): (k: Option<nat>)
    ensures k.Some? ==> k.value < |dir| && StartsWith(dir[k.value].name, prefix)
    ensures forall j :: 0 <= j < |dir| && (k.None? || j < k.value) ==> !StartsWith(dir[j].name, prefix)
  {
    if |dir| == 0 then None
    else if StartsWith(dir[0].name, prefix) then Some(0)
    else
      var k := FindFirst(dir[1..], prefix);
      if k.None? then None else Some(k.value + 1)
  }

  /** The cleanup of the catch block: unlink every entry whose name starts with `prefix`. */
  function Sweep(dir: Dir, prefix: string): (r: Dir)
    ensures forall e :: e in r <==> e in dir && !StartsWith(e.name, prefix)
  {
    if |dir| == 0 then []
    else (if StartsWith(dir[0].name, prefix) then [] else [dir[0]]) + Sweep(dir[1..], prefix)
  }

  /** `path.extname(name)` for a bare entry name, as Node's POSIX implementation computes it. */
  function ExtName(name: string): (ext: string)
    ensures ext == [] || (ext[0] == '.' && '.' !in ext[1..] && |ext| <= |name| && name[|name| - |ext|..] == ext)
    ensures ext == [] <==> |name| == 0 || '.' !in name[1..] || name == ".."
  {
    if '.' !in name then ""
    else
      var k := LastIndexOf(name, '.');
      if k == 0 || name == ".." then "" else name[k..]
  }

  /** `name.replace(/\.[^/.]+$/, "")`: drop a final '.' followed by a non-empty run of characters other than '/' and '.'. */
  function StripExtension(name: string): string {
    if '.' !in name then name
    else
      var k := LastIndexOf(name, '.');
      if k + 1 < |name| && '/' !in name[k + 1..] then name[..k] else name
  }

  /** The lower-cased extension of the served file. */
  function Ext(name: string): string {
    ToLower(ExtName(name))
  }

  /** The media type each recognised extension stands for. */
  const MediaTypes: map<string, string> := map[
    ".jpg" := "image/jpeg", ".jpeg" := "image/jpeg", ".png" := "image/png",
    ".webp" := "image/webp", ".mp4" := "video/mp4", ".mp3" := "audio/mpeg"]

  /** The content type the extension selects, or the format's default. */
  function ContentTypeFor(ext: string, default: string): string {
    if ext == ".jpg" || ext == ".jpeg" then "image/jpeg"
    else if ext == ".png" then "image/png"
    else if ext == ".webp" then "image/webp"
    else if ext == ".mp4" then "video/mp4"
    else if ext == ".mp3" then "audio/mpeg"
    else default
  }

  /** The extension decides the content type whenever it is a recognised one; otherwise the format's default stands. */
  lemma ContentTypeMatchesTable(ext: string, default: string)
    ensures ext in MediaTypes ==> ContentTypeFor(ext, default) == MediaTypes[ext]
    ensures ext !in MediaTypes ==> ContentTypeFor(ext, default) == default
  {
  }

  /** The download name: the default name with its extension replaced by the served file's. */
  function Filename(kind: MediaKind, ext: string): (r: string)
    ensures r == Stem(kind) + ext
  {
    DefaultExtIsPlain(kind);
    StripsPlainExtension(Stem(kind), DefaultExt(kind));
    StripExtension(DefaultName(kind)) + ext
  }

  lemma DefaultExtIsPlain(kind: MediaKind)
    ensures |DefaultExt(kind)| > 0 && '.' !in DefaultExt(kind) && '/' !in DefaultExt(kind)
  {
  }

  /** The replacement removes a final extension free of '.' and '/', and only that. */
  lemma StripsPlainExtension(p: string, e: string)
    requires |e| > 0 && '.' !in e && '/' !in e
    ensures StripExtension(p + "." + e) == p
  {
    var name := p + "." + e;
    LastIndexOfAfter(p, '.', e);
    assert name[|p| + 1..] == e;
    assert name[..|p|] == p;
  }

  /** The last `c` of `p + [c] + suffix` is the one after `p` when `suffix` has none. */
  lemma {:induction false} LastIndexOfAfter(p: string, c: char, suffix: string)
    requires c !in suffix
    ensures LastIndexOf(p + [c] + suffix, c) == |p|
    decreases |suffix|
  {
    var s := p + [c] + suffix;
    if |suffix| > 0 {
      assert s[..|s| - 1] == p + [c] + suffix[..|suffix| - 1];
      LastIndexOfAfter(p, c, suffix[..|suffix| - 1]);
    }
  }

  function Disposition(filename: string): string {
    "attachment; filename=\"" + filename + "\""
  }

  /** The result of the file-handling block and the directory it leaves. */
  datatype Served = Served(response: Response, dir: Dir)

  /**
   Read the first entry carrying the file id and unlink it; when there is no
   such entry or it cannot be read, sweep every entry carrying the id and
   answer 500.
   */
  function Serve(dir: Dir, fileId: string, kind: MediaKind): (s: Served)
    ensures s.response.Attachment? <==>
      FindFirst(dir, fileId).Some? && dir[FindFirst(dir, fileId).value].data.Some?
    ensures s.response.JsonError? ==>
      && s.response == JsonError(500, ProcessFailed)
      && (forall e :: e in s.dir <==> e in dir && !StartsWith(e.name, fileId))
    ensures s.response.Attachment? ==>
      var k := FindFirst(dir, fileId).value;
      var ext := Ext(dir[k].name);
      && s.dir == dir[..k] + dir[k + 1..]
      && s.response.body == dir[k].data.value
      && s.response.contentLength == |s.response.body|
      && s.response.contentType == ContentTypeFor(ext, DefaultType(kind))
      && s.response.disposition == Disposition(Stem(kind) + ext)
  {
    var found := FindFirst(dir, fileId);
    if found.None? then Served(JsonError(500, ProcessFailed), Sweep(dir, fileId))
    else
      var k := found.value;
      var entry := dir[k];
      if entry.data.None? then Served(JsonError(500, ProcessFailed), Sweep(dir, fileId))
      else
        Served(AttachmentFor(entry.name, entry.data.value, kind), dir[..k] + dir[k + 1..])
  }

  /** The response for the file read: its bytes, with the headers its extension selects. */
  function AttachmentFor(name: string, bytes: seq<byte>, kind: MediaKind): (r: Response)
    ensures r.Attachment? && r.body == bytes && r.contentLength == |bytes|
    ensures r.contentType == ContentTypeFor(Ext(name), DefaultType(kind))
    ensures r.disposition == Disposition(Stem(kind) + Ext(name))
  {
    var ext := Ext(name);
    Attachment(bytes, Disposition(Filename(kind, ext)), ContentTypeFor(ext, DefaultType(kind)), |bytes|)
  }

  // ---------------------------------------------------------------------------
  // The handler
  // ---------------------------------------------------------------------------

  /** The temporary directory once `mkdirSync` has created it if it was missing. */
  function TmpAtStart(tmp: Option<Dir>): Dir {
    if tmp.Some? then tmp.value else []
  }

  function Download(q: Query, env: Env): (o: Outcome)
    ensures o.response.Status() == 400 <==> !Truthy(q.url)
    ensures !Truthy(q.url) ==> o.invoked == [] && o.tmp == env.tmp
    ensures o.response.Status() in {200, 400, 403, 500}
    ensures |o.invoked| <= 2
    ensures |o.invoked| == 2 <==> Truthy(q.url) && CookieLocked(env.replies.first)
    ensures Truthy(q.url) ==> |o.invoked| >= 1 && o.tmp.Some?
    ensures Truthy(q.url) ==> o.invoked[0] == CookieArgs + RequestArgs(q, OutputTemplate(env.tmpDir, env.fileId))
    ensures |o.invoked| == 2 ==> o.invoked[1] == RequestArgs(q, OutputTemplate(env.tmpDir, env.fileId))
    ensures Truthy(q.url) ==> forall a :: a in o.invoked ==> |a| > 0 && a[|a| - 1] == q.url.value
    ensures o.response.Status() == 403 <==>
      |o.invoked| == 2 && !Succeeded(env.replies.second) && LoginSignature(RejectMessage(env.replies.second))
    ensures o.response.Status() == 200 <==> o.response.Attachment?
    ensures Truthy(q.url) ==>
      var x := Extract(RequestArgs(q, OutputTemplate(env.tmpDir, env.fileId)), env.replies, TmpAtStart(env.tmp));
      var k := FindFirst(x.dir, env.fileId);
      && (o.response.Attachment? <==> x.Extracted? && k.Some? && x.dir[k.value].data.Some?)
      && (o.response.Attachment? ==> o.response.body == x.dir[k.value].data.value)
    ensures o.response.Attachment? ==> o.response.contentLength == |o.response.body|
  {
    if !Truthy(q.url) then Outcome(JsonError(400, UrlRequired), [], env.tmp)
    else
      var args := RequestArgs(q, OutputTemplate(env.tmpDir, env.fileId));
      var x := Extract(args, env.replies, TmpAtStart(env.tmp));
      match x
      case Refused(status, invoked, dir) =>
        Outcome(JsonError(status, if status == 403 then LoginAdvice else ProcessFailed), invoked, Some(dir))
      case Extracted(invoked, dir) =>
        var s := Serve(dir, env.fileId, KindOf(q.format));
        Outcome(s.response, invoked, Some(s.dir))
  }

  // ---------------------------------------------------------------------------
  // Properties
  // ---------------------------------------------------------------------------

  /** What a request asks of the extractor, as the options it should read (without the cookie store). */
  function Intended(q: Query, template: string): Options
    requires Truthy(q.url)
  {
    var kind := KindOf(q.format);
    Options(
      cookiesFrom := None,
      extractAudio := kind == Audio,
      audioFormat := if kind == Audio then Some("mp3") else None,
      selector := if kind != Video then None
                  else if Truthy(q.quality) then Some(FormatSelector(q.quality.value))
                  else Some("best"),
      output := Some(template),
      playlistItems := if Truthy(q.playlistItems) then q.playlistItems else None,
      dumpJson := false,
      flatPlaylist := false,
      unknown := [],
      urls := [q.url.value])
  }

  /**
   The extractor reads back exactly what was requested: the format options,
   the output template, the playlist selection, and the URL as the one
   positional argument; the first attempt adds the Chrome cookie store. This
   holds for every URL that does not itself look like an option.
   */
  lemma ExtractorReadsRequest(q: Query, template: string)
    requires Truthy(q.url) && !LooksLikeOption(q.url.value)
    ensures ReadOptions(RequestArgs(q, template)) == Intended(q, template)
    ensures ReadOptions(CookieArgs + RequestArgs(q, template)) == Intended(q, template).(cookiesFrom := Some("chrome"))
  {
    var args := RequestArgs(q, template);
    var want := Intended(q, template);
    ReadsRequestArgs(q, template);
    assert CookieArgs + args == ["--cookies-from-browser", "chrome"] + args;
    ReadValue("--cookies-from-browser", "chrome", args);
    assert WithValue(want, "--cookies-from-browser", "chrome") == want.(cookiesFrom := Some("chrome"));
  }

  lemma ReadsRequestArgs(q: Query, template: string)
    requires Truthy(q.url) && !LooksLikeOption(q.url.value)
    ensures ReadOptions(RequestArgs(q, template)) == Intended(q, template)
  {
    var u := q.url.value;
    var kind := KindOf(q.format);
    var base := BaseArgs(kind, q.quality, template, u);
    var items := if Truthy(q.playlistItems) then q.playlistItems else None;
    var tail := ReadsTail(u, q.playlistItems);
    var afterOutput := NoOptions.(output := Some(template), playlistItems := items, urls := [u]);
    RequestArgsSplit(q, template, tail);
    ReadValue("-o", template, tail);
    assert ReadOptions(["-o", template] + tail) == afterOutput;
    if kind == Video {
      ReadsVideoArgs(q, template, tail, afterOutput);
    } else if kind == Audio {
      ReadsAudioArgs(q, template, tail, afterOutput);
    } else {
      assert kind == Image;
      assert base == ["-o", template, u];
      assert base[..|base| - 1] + tail == ["-o", template] + tail;
    }
  }

  /** The request arguments are the format options and `-o template`, then the playlist pair if any and the URL. */
  lemma RequestArgsSplit(q: Query, template: string, tail: seq<string>)
    requires Truthy(q.url)
    requires tail == if Truthy(q.playlistItems) then ["--playlist-items", q.playlistItems.value, q.url.value] else [q.url.value]
    ensures var base := BaseArgs(KindOf(q.format), q.quality, template, q.url.value);
      RequestArgs(q, template) == base[..|base| - 1] + tail
  {
  }

  lemma ReadsVideoArgs(q: Query, template: string, tail: seq<string>, afterOutput: Options)
    requires Truthy(q.url) && KindOf(q.format) == Video
    requires ReadOptions(["-o", template] + tail) == afterOutput && afterOutput.selector.None?
    ensures var base := BaseArgs(Video, q.quality, template, q.url.value);
      ReadOptions(base[..|base| - 1] + tail) == afterOutput.(selector := Intended(q, template).selector)
  {
    var selector := if Truthy(q.quality) then FormatSelector(q.quality.value) else "best";
    var base := BaseArgs(Video, q.quality, template, q.url.value);
    assert base[..|base| - 1] + tail == ["-f", selector] + (["-o", template] + tail);
    ReadValue("-f", selector, ["-o", template] + tail);
  }

  lemma ReadsAudioArgs(q: Query, template: string, tail: seq<string>, afterOutput: Options)
    requires Truthy(q.url) && KindOf(q.format) == Audio
    requires ReadOptions(["-o", template] + tail) == afterOutput
    requires afterOutput.audioFormat.None? && !afterOutput.extractAudio
    ensures var base := BaseArgs(Audio, q.quality, template, q.url.value);
      ReadOptions(base[..|base| - 1] + tail) == afterOutput.(audioFormat := Some("mp3"), extractAudio := true)
  {
    var base := BaseArgs(Audio, q.quality, template, q.url.value);
    var args := base[..|base| - 1] + tail;
    var rest := ["--audio-format", "mp3"] + (["-o", template] + tail);
    assert args == ["-x"] + rest;
    ReadValue("--audio-format", "mp3", ["-o", template] + tail);
    ReadFlag("-x", rest);
  }

  /** The arguments after the output template: the playlist pair if any, then the URL. */
  lemma ReadsTail(u: string, items: Option<string>) returns (tail: seq<string>)
    requires u != "" && !LooksLikeOption(u)
    ensures tail == if Truthy(items) then ["--playlist-items", items.value, u] else [u]
    ensures ReadOptions(tail) == NoOptions.(playlistItems := if Truthy(items) then items else None, urls := [u])
  {
    ReadUrl(u);
    if Truthy(items) {
      tail := ["--playlist-items", items.value, u];
      ReadValue("--playlist-items", items.value, [u]);
    } else {
      tail := [u];
    }
  }

  /** A URL that looks like an option is not read as the URL at all. */
  lemma OptionLikeUrlIsNotAUrl(template: string)
    ensures var o := ReadOptions(RequestArgs(Query(Some("--version"), None, None, None), template));
      o.urls == [] && o.unknown == ["--version"]
  {
    var args := ["-f", "best", "-o", template, "--version"];
    assert RequestArgs(Query(Some("--version"), None, None, None), template) == args;
    assert ReadOptions(["--version"]) == NoOptions.(unknown := ["--version"]);
    ReadValue("-o", template, ["--version"]);
    ReadValue("-f", "best", ["-o", template, "--version"]);
  }

  /** The extractor names its output `<id>.<ext>`; `extname` recovers `.<ext>` from it. */
  lemma ExtNameOfOutput(id: string, e: string)
    requires |id| > 0 && '.' !in id && '.' !in e
    ensures ExtName(id + "." + e) == "." + e
  {
    var name := id + "." + e;
    LastIndexOfAfter(id, '.', e);
    assert name[|id|..] == "." + e;
    assert name[0] == id[0] && id[0] != '.';
  }

  /** Removing the entry at `k` from a directory keeps exactly the entries with another name. */
  lemma RemoveEntry(dir: Dir, k: nat)
    requires DistinctNames(dir) && k < |dir|
    ensures forall e :: e in dir[..k] + dir[k + 1..] <==> e in dir && e.name != dir[k].name
  {
    var a, b := dir[..k], dir[k + 1..];
    assert dir == a + [dir[k]] + b;
    forall e | e in a ensures e.name != dir[k].name {
      var j :| 0 <= j < |a| && a[j] == e;
      assert dir[j] == e;
    }
    forall e | e in b ensures e.name != dir[k].name {
      var j :| 0 <= j < |b| && b[j] == e;
      assert dir[k + 1 + j] == e;
    }
  }

  /**
   In a directory (names are distinct), serving a file unlinks exactly that
   file: no entry of that name remains and every other entry is kept.
   */
  lemma ServedFileIsRemoved(dir: Dir, fileId: string, kind: MediaKind)
    requires DistinctNames(dir)
    ensures var s := Serve(dir, fileId, kind);
      s.response.Attachment? ==>
        var name := dir[FindFirst(dir, fileId).value].name;
        forall e :: e in s.dir <==> e in dir && e.name != name
  {
    var s := Serve(dir, fileId, kind);
    if s.response.Attachment? {
      RemoveEntry(dir, FindFirst(dir, fileId).value);
    }
  }

  /**
   After a successful extraction the handler leaves no file carrying the id
   behind when it fails, and only the served file is gone when it succeeds.
   After a failed extraction it removes nothing.
   */
  lemma DownloadCleanup(q: Query, env: Env)
    requires Truthy(q.url)
    ensures var o := Download(q, env);
      var x := Extract(RequestArgs(q, OutputTemplate(env.tmpDir, env.fileId)), env.replies, TmpAtStart(env.tmp));
      && (x.Extracted? && o.response.JsonError? ==>
            forall e :: e in o.tmp.value <==> e in x.dir && !StartsWith(e.name, env.fileId))
      && (x.Extracted? && o.response.Attachment? && DistinctNames(TmpAtStart(env.tmp)) ==>
            var name := x.dir[FindFirst(x.dir, env.fileId).value].name;
            && StartsWith(name, env.fileId)
            && (forall e :: e in o.tmp.value <==> e in x.dir && e.name != name))
      && (x.Refused? ==> o.tmp == Some(x.dir))
  {
    var x := Extract(RequestArgs(q, OutputTemplate(env.tmpDir, env.fileId)), env.replies, TmpAtStart(env.tmp));
    if x.Extracted? && DistinctNames(TmpAtStart(env.tmp)) {
      ExtractKeepsDistinct(RequestArgs(q, OutputTemplate(env.tmpDir, env.fileId)), env.replies, TmpAtStart(env.tmp));
      ServedFileIsRemoved(x.dir, env.fileId, KindOf(q.format));
    }
  }

  /** The extractor runs leave a directory whose names are still distinct. */
  lemma ExtractKeepsDistinct(args: Args, replies: Replies, dir: Dir)
    requires DistinctNames(dir)
    ensures DistinctNames(Extract(args, replies, dir).dir)
  {
    WriteKeepsDistinct(dir, Written(replies.first));
    WriteKeepsDistinct(Write(dir, Written(replies.first)), Written(replies.second));
  }

  /** A run that reports the cookie-lock message is cookie-locked. */
  lemma LockMessageLocks(written: Dir)
    ensures CookieLocked(Exited(Code(1), CookieLock, written))
  {
    assert OccursAt(CookieLock, CookieLock, 0);
  }

  /**
   When both attempts write the same output name, the second attempt's file
   replaces the first one's: its bytes are served and no file is left behind.
   */
  lemma LaterWriteWins(url: string, fileId: string, tmpDir: string, partial: seq<byte>, bytes: seq<byte>)
    requires url != "" && |fileId| > 0 && '.' !in fileId
    ensures var name := fileId + ".mp4";
      var first := Exited(Code(1), CookieLock, [Entry(name, Some(partial))]);
      var second := Exited(Code(0), "", [Entry(name, Some(bytes))]);
      var o := Download(Query(Some(url), None, None, None), Env(fileId, tmpDir, None, Replies(first, second)));
      && |o.invoked| == 2
      && o.response.Attachment? && o.response.body == bytes
      && o.tmp == Some([])
  {
    var name := fileId + ".mp4";
    var stale, latest := Entry(name, Some(partial)), Entry(name, Some(bytes));
    var replies := Replies(Exited(Code(1), CookieLock, [stale]), Exited(Code(0), "", [latest]));
    var env := Env(fileId, tmpDir, None, replies);
    var q := Query(Some(url), None, None, None);
    var args := RequestArgs(q, OutputTemplate(tmpDir, fileId));
    LockMessageLocks([stale]);
    WriteOne([], stale);
    WriteOne([stale], latest);
    assert Extract(args, replies, []) == Extracted([CookieArgs + args, args], [latest]);
    DownloadSteps(q, env);
    assert name[..|fileId|] == fileId;
    ServeLoneEntry(name, fileId, bytes, Video);
  }

  /** An extractor failure with empty stderr is never retried and never read as a login problem. */
  lemma SilentFailureIsGeneric(q: Query, env: Env)
    requires Truthy(q.url)
    requires env.replies.first.Exited? && env.replies.first.exit != Code(0) && env.replies.first.stderr == ""
    ensures Download(q, env).invoked == [CookieArgs + RequestArgs(q, OutputTemplate(env.tmpDir, env.fileId))]
    ensures Download(q, env).response == JsonError(500, ProcessFailed)
  {
    SynthesizedMessageMatchesNothing(env.replies.first.exit);
  }

  /** Past the URL check, the handler is the retry ladder followed, on success, by the file stage. */
  lemma DownloadSteps(q: Query, env: Env)
    requires Truthy(q.url)
    ensures var x := Extract(RequestArgs(q, OutputTemplate(env.tmpDir, env.fileId)), env.replies, TmpAtStart(env.tmp));
      var o := Download(q, env);
      && (x.Refused? ==> o == Outcome(JsonError(x.status, if x.status == 403 then LoginAdvice else ProcessFailed), x.invoked, Some(x.dir)))
      && (x.Extracted? ==> var s := Serve(x.dir, env.fileId, KindOf(q.format));
            o == Outcome(s.response, x.invoked, Some(s.dir)))
  {
  }

  /** A lone entry carrying the id is served and unlinked. */
  lemma ServeLoneEntry(name: string, fileId: string, bytes: seq<byte>, kind: MediaKind)
    requires StartsWith(name, fileId)
    ensures var ext := Ext(name);
      Serve([Entry(name, Some(bytes))], fileId, kind)
        == Served(Attachment(bytes, Disposition(Stem(kind) + ext), ContentTypeFor(ext, DefaultType(kind)), |bytes|), [])
  {
    var dir := [Entry(name, Some(bytes))];
    assert FindFirst(dir, fileId) == Some(0);
    assert dir[..0] + dir[1..] == [];
  }

  /** The output `<id>.mp3` has the extension `.mp3`. */
  lemma Mp3Ext(fileId: string)
    requires |fileId| > 0 && '.' !in fileId
    ensures Ext(fileId + ".mp3") == ".mp3"
  {
    ExtNameOfOutput(fileId, "mp3");
    ToLowerKeeps(".mp3");
  }

  /** An audio request whose single run writes `<id>.mp3` is served as `instagram_audio.mp3` of type `audio/mpeg`, and the file is gone. */
  lemma AudioScenario(url: string, fileId: string, tmpDir: string, bytes: seq<byte>, second: Run)
    requires url != "" && |fileId| > 0 && '.' !in fileId
    ensures var written := [Entry(fileId + ".mp3", Some(bytes))];
      var env := Env(fileId, tmpDir, None, Replies(Exited(Code(0), "", written), second));
      var o := Download(Query(Some(url), Some("mp3"), None, None), env);
      && |o.invoked| == 1
      && o.response == Attachment(bytes, Disposition("instagram_audio.mp3"), "audio/mpeg", |bytes|)
      && o.tmp == Some([])
  {
    var name := fileId + ".mp3";
    var written := [Entry(name, Some(bytes))];
    var env := Env(fileId, tmpDir, None, Replies(Exited(Code(0), "", written), second));
    var q := Query(Some(url), Some("mp3"), None, None);
    var args := RequestArgs(q, OutputTemplate(tmpDir, fileId));
    assert KindOf(q.format) == Audio;
    assert [] + written + [] == written;
    WriteOne([], written[0]);
    assert Extract(args, env.replies, []) == Extracted([CookieArgs + args], written);
    DownloadSteps(q, env);
    Mp3Ext(fileId);
    assert name[..|fileId|] == fileId;
    ServeLoneEntry(name, fileId, bytes, Audio);
    Mp3Headers();
  }

  /** The headers an `.mp3` file gets on an audio request. */
  lemma Mp3Headers()
    ensures ContentTypeFor(".mp3", DefaultType(Audio)) == "audio/mpeg"
    ensures Stem(Audio) + ".mp3" == "instagram_audio.mp3"
  {
  }

  /** A cookie lock on the first attempt and a failure carrying a login signature on the second answer 403 with the login advice. */
  lemma LockedThenLoginSignature(q: Query, env: Env)
    requires Truthy(q.url)
    requires CookieLocked(env.replies.first) && !Succeeded(env.replies.second)
    requires LoginSignature(RejectMessage(env.replies.second))
    ensures Download(q, env).response == JsonError(403, LoginAdvice)
    ensures |Download(q, env).invoked| == 2
  {
    DownloadSteps(q, env);
  }

  /** The 403 path: a cookie lock on the first attempt, then a login signature on the second. */
  lemma LoginScenario(q: Query, env: Env)
    requires Truthy(q.url)
    requires env.replies.first == Exited(Code(1), CookieLock, [])
    requires env.replies.second == Exited(Code(1), "ERROR: " + NotGranting, [])
    ensures var o := Download(q, env);
      && o.response == JsonError(403, LoginAdvice)
      && |o.invoked| == 2
      && o.tmp == Some(TmpAtStart(env.tmp))
  {
    var m := "ERROR: " + NotGranting;
    assert RejectMessage(env.replies.first) == CookieLock;
    assert OccursAt(CookieLock, CookieLock, 0);
    assert CookieLocked(env.replies.first);
    assert RejectMessage(env.replies.second) == m;
    assert OccursAt(m, NotGranting, 7);
    assert LoginSignature(m);
    var args := RequestArgs(q, OutputTemplate(env.tmpDir, env.fileId));
    var x := Extract(args, env.replies, TmpAtStart(env.tmp));
    assert TmpAtStart(env.tmp) + [] + [] == TmpAtStart(env.tmp);
    assert x == Refused(403, [CookieArgs + args, args], TmpAtStart(env.tmp));
  }

  /** A first attempt that fails on anything but the cookie lock is the last one, and answers 500. */
  lemma UnlockedFailureIsFinal(q: Query, env: Env)
    requires Truthy(q.url)
    requires !Succeeded(env.replies.first) && !CookieLocked(env.replies.first)
    ensures var o := Download(q, env);
      && o.response == JsonError(500, ProcessFailed)
      && o.invoked == [CookieArgs + RequestArgs(q, OutputTemplate(env.tmpDir, env.fileId))]
      && o.tmp == Some(Write(TmpAtStart(env.tmp), Written(env.replies.first)))
  {
    DownloadSteps(q, env);
  }

  /** A login signature on the first attempt alone is not retried and answers 500, not 403. */
  lemma FirstAttemptLoginIsGeneric(q: Query, env: Env)
    requires Truthy(q.url)
    requires env.replies.first == Exited(Code(1), NotGranting, [])
    ensures Download(q, env).response == JsonError(500, ProcessFailed)
    ensures |Download(q, env).invoked| == 1
  {
    assert RejectMessage(env.replies.first) == NotGranting;
    NotGrantingIsNoLock();
    UnlockedFailureIsFinal(q, env);
  }

  // ---------------------------------------------------------------------------
  // Cleanup on the extraction-failure paths
  // ---------------------------------------------------------------------------

  /** The extractor's message when a download breaks off midway. */
  const BrokenOff := "ERROR: unable to " + "download video data: " + "HTTP Error 403: Forbidden"

  /** That message is not the cookie-lock signature. */
  lemma BrokenOffIsNoLock()
    ensures !Includes(BrokenOff, CookieLock)
  {
    assert 'C' !in "ERROR: unable to ";
    assert 'C' !in "download video data: ";
    assert 'C' !in "HTTP Error 403: Forbidden";
    MissingCharExcludes(BrokenOff, CookieLock, 'C');
  }

  /** A partial file an extractor left behind when its download broke off survives the request. */
  lemma PartialFileSurvivesFailure(url: string, fileId: string, tmpDir: string, partial: seq<byte>)
    requires url != ""
    ensures var part := Entry(fileId + ".mp4.part", Some(partial));
      var env := Env(fileId, tmpDir, Some([]), Replies(Exited(Code(1), BrokenOff, [part]), LaunchFailed("")));
      var o := Download(Query(Some(url), None, None, None), env);
      && o.response == JsonError(500, ProcessFailed)
      && o.tmp == Some([part])
      && StartsWith(part.name, fileId)
  {
    var part := Entry(fileId + ".mp4.part", Some(partial));
    var first := Exited(Code(1), BrokenOff, [part]);
    var env := Env(fileId, tmpDir, Some([]), Replies(first, LaunchFailed("")));
    var q := Query(Some(url), None, None, None);
    assert RejectMessage(first) == BrokenOff;
    BrokenOffIsNoLock();
    UnlockedFailureIsFinal(q, env);
    WriteOne([], part);
    assert (fileId + ".mp4.part")[..|fileId|] == fileId;
  }

  /** The handler with the sweep applied on every failure path, extraction failures included. */
  function DownloadWithSweep(q: Query, env: Env): (o: Outcome)
    ensures o.response == Download(q, env).response && o.invoked == Download(q, env).invoked
    ensures Truthy(q.url) ==> o.tmp.Some?
    ensures Truthy(q.url) && o.response.JsonError? ==>
      forall e :: e in o.tmp.value ==> !StartsWith(e.name, env.fileId)
  {
    var o := Download(q, env);
    if Truthy(q.url) && o.response.JsonError? then
      var left := Sweep(o.tmp.value, env.fileId);
      Outcome(o.response, o.invoked, Some(left))
    else o
  }

  /** With the sweep, a failed request leaves every entry that does not carry the id and none that does. */
  lemma SweepKeepsOthers(q: Query, env: Env)
    requires Truthy(q.url)
    ensures var o := DownloadWithSweep(q, env);
      var x := Extract(RequestArgs(q, OutputTemplate(env.tmpDir, env.fileId)), env.replies, TmpAtStart(env.tmp));
      o.response.JsonError? ==> forall e :: e in o.tmp.value <==> e in x.dir && !StartsWith(e.name, env.fileId)
  {
    DownloadCleanup(q, env);
  }
}
