/**
 * The export client's run (`Exporter.DoMagic`): pick the time window, read
 * the credentials, name the archive entries, and, with a storage URL,
 * reserve the owner name and upload the snapshot; the last-run marker
 * moves to the fetch time only when every stage succeeded.
 *
 * Calendar access, zip packaging, the storage directory and the HTTP
 * transport are not modelled: the number of calendar streams, the server's
 * answers, the clock readings, file reads and absolute date parsing come
 * in as an `Environment`.
 */
module Export {
  import opened Wrappers
  import opened Ticks
  import opened Text
  import opened RelativeTime
  import opened ExportArguments
  import opened QueryStrings
  import opened ServerApi

  // ------------------------------------------------------------ dates

  /**
   * `TryGetRelativeOrAbsoluteDatetime`: blank text gives nothing; the
   * relative form is tried first and an exception in it gives nothing;
   * only a text that is not relative reaches the absolute parser.
   */
  function TryGetRelativeOrAbsoluteDatetime(text: string, now: int, parseAbsolute: string -> Option<int>): (r: Option<int>)
    ensures IsBlank(text) ==> r.None?
    ensures RelativeSpec(text, now).Relative? ==> r == Some(RelativeSpec(text, now).dt)
    ensures RelativeSpec(text, now).Threw? ==> r.None?
    ensures RelativeSpec(text, now).NotRelative? && !IsBlank(text) ==> r == parseAbsolute(text)
  {
    if IsBlank(text) then None
    else
      match RelativeSpec(text, now)
      case Relative(dt) => Some(dt)
      case Threw => None
      case NotRelative => parseAbsolute(text)
  }

  /** The window of appointments to fetch. */
  datatype Window = Window(start: int, end: int)

  /**
   * The window of `DoMagic`: everything for a full snapshot; otherwise the
   * start is the last run (when continuing and the marker is readable),
   * else the parsed start, else `DateTime.MinValue`, and the end is the
   * parsed end, else `DateTime.MaxValue`. Each parse reads the clock
   * (`startNow`, `endNow`).
   */
  function SelectWindow(a: CalendarExportArguments, lastRun: Option<int>, startNow: int, endNow: int,
                        parseAbsolute: string -> Option<int>): Window
  {
    if a.fullSnapshot then Window(MinTicks, MaxTicks)
    else
      var start := OrElse(if a.partialSinceLastRun then lastRun else None,
                          TryGetRelativeOrAbsoluteDatetime(a.partialSnapshotStart, startNow, parseAbsolute));
      var end := TryGetRelativeOrAbsoluteDatetime(a.partialSnapshotEnd, endNow, parseAbsolute);
      Window(start.GetOr(MinTicks), end.GetOr(MaxTicks))
  }

  /** A full snapshot covers all time, whatever the other options and inputs say. */
  lemma FullWindowFixed(a: CalendarExportArguments, lastRun: Option<int>, startNow: int, endNow: int,
                        parseAbsolute: string -> Option<int>)
    requires a.fullSnapshot
    ensures SelectWindow(a, lastRun, startNow, endNow, parseAbsolute) == Window(MinTicks, MaxTicks)
  {
  }

  /**
   * A continuing partial run with a readable marker starts at the marker,
   * whatever `--partial-start` says; without continuing the marker is not
   * consulted.
   */
  lemma ContinueStartsAtMarker(a: CalendarExportArguments, lastRun: Option<int>, startNow: int, endNow: int,
                               parseAbsolute: string -> Option<int>)
    requires !a.fullSnapshot
    ensures a.partialSinceLastRun && lastRun.Some? ==>
      SelectWindow(a, lastRun, startNow, endNow, parseAbsolute).start == lastRun.value
    ensures !a.partialSinceLastRun ==>
      SelectWindow(a, lastRun, startNow, endNow, parseAbsolute) == SelectWindow(a, None, startNow, endNow, parseAbsolute)
  {
  }

  /** With the default bounds and no marker, a partial run covers the last day up to the clock. */
  lemma DefaultWindow(a: CalendarExportArguments, lastRun: Option<int>, startNow: int, endNow: int,
                      parseAbsolute: string -> Option<int>)
    requires !a.fullSnapshot && (!a.partialSinceLastRun || lastRun.None?)
    requires a.partialSnapshotStart == DefaultPartialStart && a.partialSnapshotEnd == DefaultPartialEnd
    requires InDateRange(startNow - TicksPerDay) && InDateRange(startNow) && InDateRange(endNow)
    ensures SelectWindow(a, lastRun, startNow, endNow, parseAbsolute) == Window(startNow - TicksPerDay, endNow)
  {
    DefaultsAreRelative(startNow);
    ExampleNow(endNow);
    assert !IsBlank(DefaultPartialStart) by { assert !IsWhiteSpace(DefaultPartialStart[0]); }
    assert !IsBlank(DefaultPartialEnd) by { assert !IsWhiteSpace(DefaultPartialEnd[0]); }
  }

  /**
   * Both bounds are valid `DateTime` values when the clocks, the marker
   * and whatever the absolute parser returns are.
   */
  lemma WindowInDateRange(a: CalendarExportArguments, lastRun: Option<int>, startNow: int, endNow: int,
                          parseAbsolute: string -> Option<int>)
    requires InDateRange(startNow) && InDateRange(endNow)
    requires lastRun.Some? ==> InDateRange(lastRun.value)
    requires forall t :: parseAbsolute(t).Some? ==> InDateRange(parseAbsolute(t).value)
    ensures var w := SelectWindow(a, lastRun, startNow, endNow, parseAbsolute);
      InDateRange(w.start) && InDateRange(w.end)
  {
    RelativeInRange(a.partialSnapshotStart, startNow);
    RelativeInRange(a.partialSnapshotEnd, endNow);
  }

  // ------------------------------------------------------ credentials

  /** The `bool` result and the `out` value of the two credential readers. */
  datatype Credential = Credential(ok: bool, value: Option<string>)

  /**
   * `GetEncryptionPassword`: the file wins over the inline password; a
   * file that cannot be read fails; neither given succeeds with no
   * password. `readFile` is `File.ReadAllText`, `None` where it throws.
   */
  function GetEncryptionPassword(a: CalendarExportArguments, readFile: string -> Option<string>): (c: Credential)
    ensures c.value == if a.encryptionPasswordFile.Some? then readFile(a.encryptionPasswordFile.value) else a.encryptionPassword
    ensures c.ok <==> a.encryptionPasswordFile.None? || readFile(a.encryptionPasswordFile.value).Some?
  {
    if a.encryptionPasswordFile.Some? then
      var text := readFile(a.encryptionPasswordFile.value);
      if text.None? then Credential(false, None) else Credential(true, text)
    else if a.encryptionPassword.Some? then Credential(true, a.encryptionPassword)
    else Credential(true, None)
  }

  /**
   * `GetServerPassphrase`: the same precedence, but a passphrase is
   * required: it fails when neither source gives one.
   */
  function GetServerPassphrase(a: CalendarExportArguments, readFile: string -> Option<string>): (c: Credential)
    ensures c.value == if a.serverPassphraseFile.Some? then readFile(a.serverPassphraseFile.value) else a.serverPassphrase
    ensures c.ok <==> c.value.Some?
  {
    if a.serverPassphraseFile.Some? then
      var text := readFile(a.serverPassphraseFile.value);
      if text.None? then Credential(false, None) else Credential(true, text)
    else if a.serverPassphrase.Some? then Credential(true, a.serverPassphrase)
    else Credential(false, None)
  }

  /** With no source at all, the run goes on unencrypted but cannot talk to the server. */
  lemma NoSourcesDiffer(a: CalendarExportArguments, readFile: string -> Option<string>)
    requires a.encryptionPassword.None? && a.encryptionPasswordFile.None?
    requires a.serverPassphrase.None? && a.serverPassphraseFile.None?
    ensures GetEncryptionPassword(a, readFile) == Credential(true, None)
    ensures !GetServerPassphrase(a, readFile).ok
  {
  }

  /** The archive is encrypted only with a non-empty password. */
  predicate Encrypts(password: Option<string>) {
    password.Some? && password.value != ""
  }

  /** An empty password file silently turns encryption off rather than failing. */
  lemma EmptyPasswordFileNotEncrypting(a: CalendarExportArguments, readFile: string -> Option<string>)
    requires a.encryptionPasswordFile.Some? && readFile(a.encryptionPasswordFile.value) == Some("")
    ensures GetEncryptionPassword(a, readFile).ok && !Encrypts(GetEncryptionPassword(a, readFile).value)
  {
  }

  // ---------------------------------------------------- archive entries

  /** `$"{i:D5}.ics"`. */
  function EntryName(i: nat): string {
    PadD5(i) + ".ics"
  }

  /** Different stream indices give different entry names. */
  lemma EntryNamesDistinct(i: nat, j: nat)
    requires i != j
    ensures EntryName(i) != EntryName(j)
  {
    var p, q := PadD5(i), PadD5(j);
    assert DecimalValue(p) != DecimalValue(q);
    if |p| == |q| {
      assert EntryName(i)[..|p|] == p;
      assert EntryName(j)[..|q|] == q;
    } else {
      assert |EntryName(i)| != |EntryName(j)|;
    }
  }

  /** The names of `count` streams, in stream order. */
  function EntryNames(count: nat): (names: seq<string>)
    ensures |names| == count
  {
    seq(count, i requires 0 <= i => EntryName(i))
  }

  /** The entry loop of `DoMagic`: one name per stream, the counter `i` counting from 0. */
  method NameEntries(streamCount: nat) returns (names: seq<string>)
    ensures names == EntryNames(streamCount)
    ensures forall k, l :: 0 <= k < l < |names| ==> names[k] != names[l]
  {
    names := [];
    var i := 0;
    while i < streamCount
      invariant 0 <= i <= streamCount
      invariant names == EntryNames(i)
    {
      var filename := PadD5(i) + ".ics";
      names := names + [filename];
      i := i + 1;
    }
    forall k, l | 0 <= k < l < |names| ensures names[k] != names[l] {
      EntryNamesDistinct(k, l);
    }
  }

  // ------------------------------------------------------------ the run

  /**
   * What one run meets outside the model: the three clock readings (the
   * start and end parses and `fetchedAt`), absolute date parsing, file
   * reads, the number of calendar streams, the hash, the UTC round-trip
   * text of an instant, and the server's answers to the name reservation
   * and to the upload.
   */
  datatype Environment = Environment(
    startNow: int,
    endNow: int,
    fetchedAt: int,
    parseAbsolute: string -> Option<int>,
    readFile: string -> Option<string>,
    streamCount: nat,
    hash: string -> string,
    roundTripUtc: int -> string,
    authenticated: bool,
    uploaded: bool)

  /** What a run did: its result, window, archive entries, encryption and requests sent. */
  datatype Run = Run(success: bool, window: Window, entries: seq<string>, encrypted: bool, requests: seq<Request>)

  /** The reservation request of a run against `url`. */
  function ReserveRequest(a: CalendarExportArguments, url: string, passphrase: string, env: Environment): Request {
    var owner := if a.hashName then env.hash(a.ownerName) else a.ownerName;
    Request(Post, QueryUrl(TrimEndSlash(url) + "/calendar", "ReserveName", CredentialParams(owner, env.hash(passphrase))))
  }

  /** The upload request: full or partial as the mode says, a partial one carrying the window. */
  function UploadRequest(a: CalendarExportArguments, url: string, passphrase: string, w: Window, env: Environment): Request {
    var owner := if a.hashName then env.hash(a.ownerName) else a.ownerName;
    var base := TrimEndSlash(url) + "/calendar";
    if a.fullSnapshot then
      Request(Post, QueryUrl(base, "AddFullSnapshot", CredentialParams(owner, env.hash(passphrase))))
    else
      Request(Post, QueryUrl(base, "AddPartialSnapshot",
        PartialUploadParams(owner, env.hash(passphrase), env.roundTripUtc(w.start), env.roundTripUtc(w.end))))
  }

  /** The requests sent once the passphrase is known: the reservation, then the upload if it was accepted. */
  function ServerRequests(a: CalendarExportArguments, url: string, passphrase: string, w: Window, env: Environment): seq<Request> {
    var reserve := ReserveRequest(a, url, passphrase, env);
    if env.authenticated then [reserve, UploadRequest(a, url, passphrase, w, env)] else [reserve]
  }

  /** The run `DoMagic` performs with marker `lastRun` in environment `env`. */
  function Expected(a: CalendarExportArguments, lastRun: Option<int>, env: Environment): Run {
    Stages(a, SelectWindow(a, lastRun, env.startNow, env.endNow, env.parseAbsolute), env)
  }

  /** The stages after the window is chosen, each failure ending the run. */
  function Stages(a: CalendarExportArguments, w: Window, env: Environment): Run {
    var password := GetEncryptionPassword(a, env.readFile);
    if !password.ok then Run(false, w, [], false, [])
    else
      var entries := EntryNames(env.streamCount);
      var encrypted := Encrypts(password.value);
      if a.storageUrl.None? then Run(true, w, entries, encrypted, [])
      else
        var passphrase := GetServerPassphrase(a, env.readFile);
        if !passphrase.ok then Run(false, w, entries, encrypted, [])
        else
          Run(env.authenticated && env.uploaded, w, entries, encrypted,
              ServerRequests(a, a.storageUrl.value, passphrase.value.value, w, env))
  }

  /**
   * A run succeeds exactly when the encryption password could be read and,
   * with a storage URL, the passphrase was found, the name was reserved
   * and the upload was accepted; without a storage URL nothing is sent.
   */
  lemma SuccessNeedsEveryStage(a: CalendarExportArguments, lastRun: Option<int>, env: Environment)
    ensures var r := Expected(a, lastRun, env);
      r.success <==>
        && GetEncryptionPassword(a, env.readFile).ok
        && (a.storageUrl.Some? ==> GetServerPassphrase(a, env.readFile).ok && env.authenticated && env.uploaded)
    ensures a.storageUrl.None? ==> Expected(a, lastRun, env).requests == []
  {
  }

  /** A run that reached the upload sent the reservation first and the upload, over the run's window, second. */
  lemma UploadFollowsReservation(a: CalendarExportArguments, lastRun: Option<int>, env: Environment)
    requires a.storageUrl.Some? && GetEncryptionPassword(a, env.readFile).ok
    requires GetServerPassphrase(a, env.readFile).ok && env.authenticated
    ensures var r := Expected(a, lastRun, env);
      var passphrase := GetServerPassphrase(a, env.readFile).value.value;
      r.requests == [ReserveRequest(a, a.storageUrl.value, passphrase, env),
                     UploadRequest(a, a.storageUrl.value, passphrase, r.window, env)]
  {
    var w := SelectWindow(a, lastRun, env.startNow, env.endNow, env.parseAbsolute);
    var passphrase := GetServerPassphrase(a, env.readFile).value.value;
    assert Expected(a, lastRun, env) == Stages(a, w, env);
    assert Stages(a, w, env).requests == ServerRequests(a, a.storageUrl.value, passphrase, w, env);
    StagesKeepWindow(a, w, env);
  }

  /** Whatever the stages do, the run reports the window it was given. */
  lemma StagesKeepWindow(a: CalendarExportArguments, w: Window, env: Environment)
    ensures Stages(a, w, env).window == w
  {
  }

  /**
   * A partial upload's URL is the base, the action and one query built from
   * the credentials and the round-trip text of the window's two bounds;
   * `ServerApi.PartialUploadReadsBack` says what the server reads from it.
   */
  lemma PartialUploadCarriesWindow(a: CalendarExportArguments, url: string, passphrase: string, w: Window, env: Environment)
    requires !a.fullSnapshot
    ensures var owner := if a.hashName then env.hash(a.ownerName) else a.ownerName;
      var q := QueryString(PartialUploadParams(owner, env.hash(passphrase), env.roundTripUtc(w.start), env.roundTripUtc(w.end)));
      UploadRequest(a, url, passphrase, w, env) == Request(Post, TrimEndSlash(url) + "/calendar" + "/" + "AddPartialSnapshot" + "?" + q)
  {
    var owner := if a.hashName then env.hash(a.ownerName) else a.ownerName;
    var ps := PartialUploadParams(owner, env.hash(passphrase), env.roundTripUtc(w.start), env.roundTripUtc(w.end));
    var base := TrimEndSlash(url) + "/calendar";
    assert UploadRequest(a, url, passphrase, w, env) == Request(Post, QueryUrl(base, "AddPartialSnapshot", ps));
    QueryUrlWithParameters(base, "AddPartialSnapshot", ps);
  }

  /**
   * After a successful run the next continuing partial run starts where
   * this one fetched: consecutive successful runs leave no gap.
   */
  lemma NextRunResumes(a: CalendarExportArguments, lastRun: Option<int>, env: Environment, next: Environment)
    requires Expected(a, lastRun, env).success
    requires !a.fullSnapshot && a.partialSinceLastRun
    ensures Expected(a, Some(env.fetchedAt), next).window.start == env.fetchedAt
  {
    var w := SelectWindow(a, Some(env.fetchedAt), next.startNow, next.endNow, next.parseAbsolute);
    ContinueStartsAtMarker(a, Some(env.fetchedAt), next.startNow, next.endNow, next.parseAbsolute);
    StagesKeepWindow(a, w, next);
  }

  /** The exporter; `lastRun` is the instant stored in `lastrun.txt`, `None` when missing or unreadable. */
  class Exporter {
    const arguments: CalendarExportArguments
    var lastRun: Option<int>

    constructor (arguments: CalendarExportArguments, lastRun: Option<int>)
      ensures this.arguments == arguments && this.lastRun == lastRun
    {
      this.arguments := arguments;
      this.lastRun := lastRun;
    }

    /** `SetLastRun`: the marker file now holds `dt`. */
    method SetLastRun(dt: int)
      modifies this
      ensures lastRun == Some(dt)
    {
      lastRun := Some(dt);
    }

    /**
     * `DoMagic`: choose the window, run the stages, and move the marker to
     * `fetchedAt` only when every stage succeeded.
     */
    method DoMagic(env: Environment) returns (success: bool, run: Run)
      modifies this
      ensures run == Expected(arguments, old(lastRun), env) && success == run.success
      ensures lastRun == if success then Some(env.fetchedAt) else old(lastRun)
    {
      var w := PickWindow(env);
      var fetchedAt := env.fetchedAt;
      run := RunStages(w, env);
      if !run.success {
        return false, run;
      }
      SetLastRun(fetchedAt);
      return true, run;
    }

    /**
     * The stages of `DoMagic` after the window: the encryption password,
     * the archive entries, then with a storage URL the passphrase and the
     * server; each failure returns at once.
     */
    method RunStages(w: Window, env: Environment) returns (run: Run)
      ensures run == Stages(arguments, w, env)
    {
      var a := arguments;
      var password := GetEncryptionPassword(a, env.readFile);
      if !password.ok {
        return Run(false, w, [], false, []);
      }
      var encrypted := password.value.Some? && password.value.value != "";
      var entries := NameEntries(env.streamCount);
      if a.storageUrl.None? {
        return Run(true, w, entries, encrypted, []);
      }
      var passphrase := GetServerPassphrase(a, env.readFile);
      if !passphrase.ok {
        return Run(false, w, entries, encrypted, []);
      }
      var ok, sent := TalkToServer(a.storageUrl.value, passphrase.value.value, w, env);
      return Run(ok, w, entries, encrypted, sent);
    }

    /** The window selection at the head of `DoMagic`. */
    method PickWindow(env: Environment) returns (w: Window)
      ensures w == SelectWindow(arguments, lastRun, env.startNow, env.endNow, env.parseAbsolute)
    {
      var a := arguments;
      var dtStart, dtEnd;
      if a.fullSnapshot {
        dtStart, dtEnd := MinTicks, MaxTicks;
      } else {
        var fromMarker := if a.partialSinceLastRun then lastRun else None;
        dtStart := OrElse(fromMarker, TryGetRelativeOrAbsoluteDatetime(a.partialSnapshotStart, env.startNow, env.parseAbsolute)).GetOr(MinTicks);
        dtEnd := TryGetRelativeOrAbsoluteDatetime(a.partialSnapshotEnd, env.endNow, env.parseAbsolute).GetOr(MaxTicks);
      }
      w := Window(dtStart, dtEnd);
    }

    /** The server stage of `DoMagic`: reserve the name, then upload the snapshot of the mode's kind. */
    method TalkToServer(url: string, passphrase: string, w: Window, env: Environment) returns (ok: bool, sent: seq<Request>)
      ensures ok == (env.authenticated && env.uploaded)
      ensures sent == ServerRequests(arguments, url, passphrase, w, env)
    {
      var a := arguments;
      var server := new ServerInterface(url, a.ownerName, passphrase, a.hashName, env.hash);
      var authenticated, reserve := server.AuthenticateOrCreate(env.authenticated);
      if !authenticated {
        return false, [reserve];
      }
      var result, upload;
      if a.fullSnapshot {
        result, upload := server.UploadFullSnapshot(env.uploaded);
      } else {
        result, upload := server.UploadPartialSnapshot(w.start, w.end, env.roundTripUtc, env.uploaded);
      }
      return result, [reserve, upload];
    }
  }
}
