/**
 * The export client's command line (`CalendarExportArguments`): the parsed
 * options, the defaults the parser fills in, and `Validate`, which rejects
 * the combinations the parser's option groups let through. `Validate`
 * prints one line when it rejects; the model returns that line as a
 * `Diagnostic`.
 */
module ExportArguments {
  import opened Wrappers
  import opened Ticks
  import opened RelativeTime

  /**
   * The options after parsing. `None` is an option not given; the two
   * partial bounds always hold text, their defaults when not given.
   */
  datatype CalendarExportArguments = CalendarExportArguments(
    storageUrl: Option<string>,
    storageDirectory: Option<string>,
    ownerName: string,
    serverPassphrase: Option<string>,
    serverPassphraseFile: Option<string>,
    encryptionPassword: Option<string>,
    encryptionPasswordFile: Option<string>,
    fullSnapshot: bool,
    partialSnapshot: bool,
    partialSinceLastRun: bool,
    partialSnapshotStart: string,
    partialSnapshotEnd: string,
    dontSanitizeIcals: bool,
    hashName: bool,
    certificatePath: Option<string>)

  /** The defaults of `--partial-start` and `--partial-end`. */
  const DefaultPartialStart: string := "now-1d"
  const DefaultPartialEnd: string := "now"

  /** The options as written on the command line. */
  const ServerPassphraseOption: string := "--server-passphrase"
  const ServerPassphraseFileOption: string := "--server-passphrase-file"
  const EncryptionPasswordOption: string := "--encryption-password"
  const EncryptionPasswordFileOption: string := "--encryption-password-file"

  /** The line printed on rejection: two options that cannot go together, or no mode. */
  datatype Diagnostic = Conflict(option: string, fileOption: string) | NoMode

  datatype Verdict = Accepted | Rejected(diagnostic: Diagnostic)

  /** Whether the option written `option` was given. */
  predicate Given(a: CalendarExportArguments, option: string) {
    if option == ServerPassphraseOption then a.serverPassphrase.Some?
    else if option == ServerPassphraseFileOption then a.serverPassphraseFile.Some?
    else if option == EncryptionPasswordOption then a.encryptionPassword.Some?
    else if option == EncryptionPasswordFileOption then a.encryptionPasswordFile.Some?
    else false
  }

  /**
   * `Validate` as written: the three checks in order, the first that fires
   * decides; accepted exactly when none fires. The first check prints the
   * encryption options' names and the second the server options' names.
   */
  function Validate(a: CalendarExportArguments): (v: Verdict)
    ensures v.Accepted? <==>
      && !(a.serverPassphrase.Some? && a.serverPassphraseFile.Some?)
      && !(a.encryptionPassword.Some? && a.encryptionPasswordFile.Some?)
      && (a.fullSnapshot || a.partialSnapshot)
  {
    if a.serverPassphrase.Some? && a.serverPassphraseFile.Some? then
      Rejected(Conflict(EncryptionPasswordOption, EncryptionPasswordFileOption))
    else if a.encryptionPassword.Some? && a.encryptionPasswordFile.Some? then
      Rejected(Conflict(ServerPassphraseOption, ServerPassphraseFileOption))
    else if !(a.fullSnapshot || a.partialSnapshot) then
      Rejected(NoMode)
    else Accepted
  }

  /**
   * The order of the checks: two server passphrase sources are reported as
   * a conflict whatever else is wrong, and the missing mode only when
   * there is no conflict.
   */
  lemma ValidateOrder(a: CalendarExportArguments)
    ensures a.serverPassphrase.Some? && a.serverPassphraseFile.Some? ==>
      Validate(a).Rejected? && Validate(a).diagnostic.Conflict?
    ensures Validate(a) == Rejected(NoMode) <==>
      && !(a.serverPassphrase.Some? && a.serverPassphraseFile.Some?)
      && !(a.encryptionPassword.Some? && a.encryptionPasswordFile.Some?)
      && !(a.fullSnapshot || a.partialSnapshot)
  {
  }

  /**
   * The defaults lie in the relative-time language: `now-1d` is one day
   * before the clock reading and `now` is the reading itself.
   */
  lemma DefaultsAreRelative(now: int)
    requires InDateRange(now) && InDateRange(now - TicksPerDay)
    ensures RelativeSpec(DefaultPartialStart, now) == Relative(now - TicksPerDay)
    ensures RelativeSpec(DefaultPartialEnd, now) == Relative(now)
  {
    ExampleMinusOneDay(now);
    ExampleNow(now);
  }

  /** `--try-partial-continue` alone selects no mode and is rejected. */
  lemma ContinueAloneRejected(a: CalendarExportArguments)
    requires a.partialSinceLastRun && !a.fullSnapshot && !a.partialSnapshot
    ensures Validate(a).Rejected?
  {
  }

  /**
   * The line printed for two server passphrase sources names the two
   * encryption options, even when neither of them was given.
   */
  lemma ServerConflictMislabelled(a: CalendarExportArguments)
    requires a.serverPassphrase.Some? && a.serverPassphraseFile.Some?
    requires a.encryptionPassword.None? && a.encryptionPasswordFile.None?
    ensures Validate(a).Rejected? && Validate(a).diagnostic.Conflict?
    ensures !Given(a, Validate(a).diagnostic.option) && !Given(a, Validate(a).diagnostic.fileOption)
  {
  }

  /** `Validate` with each conflict reported under the options that clash. */
  function ValidateIntended(a: CalendarExportArguments): (v: Verdict)
    ensures v.Accepted? <==> Validate(a).Accepted?
  {
    if a.serverPassphrase.Some? && a.serverPassphraseFile.Some? then
      Rejected(Conflict(ServerPassphraseOption, ServerPassphraseFileOption))
    else if a.encryptionPassword.Some? && a.encryptionPasswordFile.Some? then
      Rejected(Conflict(EncryptionPasswordOption, EncryptionPasswordFileOption))
    else if !(a.fullSnapshot || a.partialSnapshot) then
      Rejected(NoMode)
    else Accepted
  }

  /** Every conflict the intended validator reports names two options that were both given. */
  lemma ConflictNamesGivenOptions(a: CalendarExportArguments)
    ensures var v := ValidateIntended(a);
      v.Rejected? && v.diagnostic.Conflict? ==> Given(a, v.diagnostic.option) && Given(a, v.diagnostic.fileOption)
  {
  }
}
