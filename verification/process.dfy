/**
 What both route handlers share about the external `yt-dlp` extractor: how an
 exit is turned into a failure message, the failure-message signatures the
 handlers look for, and a reference reading of an argument vector as the
 extractor's option parser sees it.
 */
module Process {
  import opened Js

  /** The code a `close` event reports: a number, or `null` when the process was killed by a signal. */
  datatype Exit = Code(code: int) | NoCode

  /** `${code}` in a template literal. */
  function ExitText(e: Exit): string {
    match e
    case Code(c) => IntToString(c)
    case NoCode => "null"
  }

  const ExitPrefix := "yt-dlp exited with code "

  /** The message a nonzero exit is rejected with: the accumulated stderr, or a synthesized one when stderr is empty. */
  function FailureMessage(e: Exit, stderr: string): (m: string)
    ensures stderr != "" ==> m == stderr
    ensures stderr == "" ==> m == ExitPrefix + ExitText(e)
  {
    if stderr != "" then stderr else ExitPrefix + ExitText(e)
  }

  /** The signature of the browser holding a lock on its cookie store. */
  const CookieLock := "Could not copy Chrome cookie database"
  /** Signatures of a post that needs a logged-in session. */
  const NotGranting := "Instagram API is not granting access"
  const SignIn := "sign in"
  const Login := "login"

  /** The flags that make the extractor read the Chrome cookie store. */
  const CookieArgs: seq<string> := ["--cookies-from-browser", "chrome"]

  /** The text of an exit is digits, a sign or `null`: no 'g' and no 'C'. */
  lemma ExitTextLacks(e: Exit)
    ensures 'g' !in ExitText(e) && 'C' !in ExitText(e)
  {
    var t := ExitText(e);
    if e.Code? {
      assert forall k :: 0 <= k < |t| ==> IsDigit(t[k]) || t[k] == '-';
    }
  }

  /** A synthesized exit message matches none of the signatures. */
  lemma SynthesizedMessageMatchesNothing(e: Exit)
    ensures var m := FailureMessage(e, "");
      && !Includes(m, CookieLock) && !Includes(m, NotGranting)
      && !Includes(m, SignIn) && !Includes(m, Login)
  {
    var t := ExitText(e);
    ExitTextLacks(e);
    assert 'g' !in ExitPrefix && 'C' !in ExitPrefix;
    var m := ExitPrefix + t;
    assert 'g' !in m && 'C' !in m;
    assert CookieLock[0] == 'C';
    assert NotGranting[5] == 'g' && SignIn[2] == 'g' && Login[2] == 'g';
    MissingCharExcludes(m, CookieLock, 'C');
    MissingCharExcludes(m, NotGranting, 'g');
    MissingCharExcludes(m, SignIn, 'g');
    MissingCharExcludes(m, Login, 'g');
  }

  /** The login signature is not the cookie-lock signature. */
  lemma NotGrantingIsNoLock()
    ensures !Includes(NotGranting, CookieLock)
  {
    assert 'C' !in NotGranting;
    MissingCharExcludes(NotGranting, CookieLock, 'C');
  }

  /**
   The options an argument vector selects, read the way the extractor's
   option parser reads them: an option that takes a value consumes the next
   argument whatever it looks like, a later occurrence wins, any other
   argument that starts with '-' is an option the reader does not know, and
   everything else is a URL.
   */
  datatype Options = Options(
    cookiesFrom: Option<string>,
    extractAudio: bool,
    audioFormat: Option<string>,
    selector: Option<string>,
    output: Option<string>,
    playlistItems: Option<string>,
    dumpJson: bool,
    flatPlaylist: bool,
    unknown: seq<string>,
    urls: seq<string>)

  const NoOptions := Options(None, false, None, None, None, None, false, false, [], [])

  predicate TakesValue(a: string) {
    a in ["--cookies-from-browser", "--audio-format", "-f", "-o", "--playlist-items"]
  }

  /** `o` with the value option `a` set to `v`, unless a later argument already set it. */
  function WithValue(o: Options, a: string, v: string): Options {
    if a == "--cookies-from-browser" then o.(cookiesFrom := if o.cookiesFrom.Some? then o.cookiesFrom else Some(v))
    else if a == "--audio-format" then o.(audioFormat := if o.audioFormat.Some? then o.audioFormat else Some(v))
    else if a == "-f" then o.(selector := if o.selector.Some? then o.selector else Some(v))
    else if a == "-o" then o.(output := if o.output.Some? then o.output else Some(v))
    else o.(playlistItems := if o.playlistItems.Some? then o.playlistItems else Some(v))
  }

  /** An argument the reader takes for an option rather than a URL. */
  predicate LooksLikeOption(a: string) {
    |a| > 1 && a[0] == '-'
  }

  /** The number of arguments the option at the head of `args` consumes. */
  function Width(args: seq<string>): nat
    requires |args| > 0
  {
    if TakesValue(args[0]) && |args| >= 2 then 2 else 1
  }

  /** `o`, the reading of the later arguments, updated with the leading option `a` and its value. */
  function Apply(o: Options, a: string, value: Option<string>): Options {
    if value.Some? then WithValue(o, a, value.value)
    else if a == "-x" then o.(extractAudio := true)
    else if a == "--dump-json" then o.(dumpJson := true)
    else if a == "--flat-playlist" then o.(flatPlaylist := true)
    else if LooksLikeOption(a) then o.(unknown := [a] + o.unknown)
    else o.(urls := [a] + o.urls)
  }

  function ReadOptions(args: seq<string>): Options
    decreases |args|
  {
    if |args| == 0 then NoOptions
    else
      var n := Width(args);
      Apply(ReadOptions(args[n..]), args[0], if n == 2 then Some(args[1]) else None)
  }

  /** An option that takes a value consumes the next argument, whatever it looks like. */
  lemma ReadValue(a: string, v: string, rest: seq<string>)
    requires TakesValue(a)
    ensures ReadOptions([a, v] + rest) == WithValue(ReadOptions(rest), a, v)
  {
    assert ([a, v] + rest)[2..] == rest;
  }

  /** A lone argument that does not look like an option is read as a URL. */
  lemma ReadUrl(u: string)
    requires !LooksLikeOption(u)
    ensures ReadOptions([u]) == NoOptions.(urls := [u])
  {
    assert [u][1..] == [];
    assert u != "-x" && u != "--dump-json" && u != "--flat-playlist";
  }

  /** A flag that takes no value applies to the reading of the rest. */
  lemma ReadFlag(a: string, rest: seq<string>)
    requires !TakesValue(a)
    ensures ReadOptions([a] + rest) == Apply(ReadOptions(rest), a, None)
  {
    assert ([a] + rest)[1..] == rest;
  }
}
