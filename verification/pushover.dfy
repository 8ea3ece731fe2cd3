/**
 The program as a whole: `init` (the `-version` and `-msg` checks and the
 credential file) followed by `main` (build the payload, send it, classify
 the reply). The network, the user lookup and the file system are inputs.
 */
module Pushover {
  import opened Wrappers
  import opened Dotfile
  import opened Payload
  import opened Response

  /** The boolean flags: `-version` and `-v`. */
  datatype Switches = Switches(version: bool, verbose: bool)

  /** How `init` ends: on to `main` with the two keys, or a process exit. */
  datatype Startup = Proceed(token: string, user: string) | Exit(code: int)

  /** What the one HTTP exchange gives: a failure before any reply was read, or a reply. */
  datatype Exchange = TransportFailure | Replied(reply: Reply)

  /**
   Whether `init` lets `main` run: no `-version`, a non-empty message, a
   readable dotfile, and both keys non-empty after reading it.
   */
  predicate Accepted(sw: Switches, f: Flags, dotfile: Option<string>)
  {
    && !sw.version
    && f.message != ""
    && dotfile.Some?
    && Parse(dotfile.value).token != ""
    && Parse(dotfile.value).user != ""
  }

  /**
   `init` after flag parsing (main.go:73-113). `dotfile` is the content of
   `~/.pushover`, or None when the user lookup or the open failed.
   */
  method Init(sw: Switches, f: Flags, dotfile: Option<string>) returns (r: Startup)
    ensures r.Proceed? <==> Accepted(sw, f, dotfile)
    ensures r.Proceed? ==> Credentials(r.token, r.user) == Parse(dotfile.value)
    ensures r.Proceed? ==> r.token != "" && r.user != ""
    ensures r.Exit? ==> r.code == (if sw.version then 0 else 1)
  {
    if sw.version {
      return Exit(0);
    }
    if f.message == "" {
      return Exit(1);
    }
    if dotfile.None? {
      return Exit(1);
    }
    var token, user := ReadCredentials(dotfile.value);
    if token == "" || user == "" {
      return Exit(1);
    }
    return Proceed(token, user);
  }

  /**
   One run of the program: `init`, then `main`. Returns the exit status
   and the payload sent, if any. No request is built unless `init`
   accepted the configuration; the exit status is 0 only for `-version`
   or for a sent request answered by 200 with a JSON object.
   */
  method Run(sw: Switches, f: Flags, dotfile: Option<string>, exchange: Exchange, statusText: int -> string)
    returns (code: int, sent: Option<map<string, string>>)
    requires Accepted(sw, f, dotfile) && exchange.Replied? ==> Handled(sw.verbose, exchange.reply)
    ensures sent.Some? <==> Accepted(sw, f, dotfile)
    ensures sent.Some? ==> sent.value == Form(Parse(dotfile.value).token, Parse(dotfile.value).user, f)
    ensures sent.Some? ==> Decode(sent.value) == Request(Parse(dotfile.value).token, Parse(dotfile.value).user, f)
    ensures code == 0 || code == 1
    ensures code == 0 <==>
              || sw.version
              || (sent.Some? && exchange.Replied? && exchange.reply.status == StatusOK && exchange.reply.body.JsonObject?)
  {
    var start := Init(sw, f, dotfile);
    if start.Exit? {
      return start.code, None;
    }
    var v := BuildPayload(start.token, start.user, f);
    sent := Some(v);
    if exchange.TransportFailure? {
      return 1, sent;
    }
    var outcome := Classify(sw.verbose, exchange.reply, statusText);
    code := ExitCode(outcome);
  }
}
