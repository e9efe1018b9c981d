/**
 Writing a share's settings through emhttpd and verifying by reading them back,
 over a host reached only by shell commands.
 */
module ShareWrite {
  import opened Wrappers
  import opened Strings
  import opened FormEncoding
  import opened ShareCfg
  import opened Share
  import QuoteShell

  datatype Response = Response(exitCode: int, stdout: string)

  const SHARE_CFG_DIR := "/boot/config/shares"
  const SHARES_ROOT := "/mnt/user"
  const EMCMD := "/usr/local/sbin/emcmd"

  function ShareCfgPath(name: string): string { SHARE_CFG_DIR + ("/" + (name + ".cfg")) }

  function EmcmdCommand(query: string): string {
    QuoteShell.QuoteForShell(EMCMD) + (" " + QuoteShell.QuoteForShell(query))
  }

  function CatCommand(name: string): string { "cat" + (" " + QuoteShell.QuoteForShell(ShareCfgPath(name))) }

  function FindCommand(name: string): string {
    "find " + QuoteShell.QuoteForShell(SHARES_ROOT + "/" + name) + " -mindepth 1 -print -quit 2>/dev/null"
  }

  /** A machine that answers commands; `exec` is whatever it does. */
  class Shell<S> {
    const exec: (S, string) -> (S, Response)
    var host: S
    ghost var log: seq<string>

    constructor (exec: (S, string) -> (S, Response), host: S)
      ensures this.exec == exec && this.host == host && log == []
    {
      this.exec, this.host, log := exec, host, [];
    }

    method Execute(command: string) returns (response: Response)
      modifies this
      ensures (host, response) == exec(old(host), command) && log == old(log) + [command]
    {
      var answer := exec(host, command);
      host, response := answer.0, answer.1;
      log := log + [command];
    }
  }

  // ---------------------------------------------------------------- read-back

  function ReadBack(response: Response): Option<Cfg> {
    if response.exitCode == 0 then Some(Parsed(response.stdout)) else None
  }

  /** The requested entries the cfg read back does not confirm. */
  function Unconfirmed(requested: seq<Entry>, cfgAfter: Cfg): seq<string> {
    if requested == [] then []
    else
      (if requested[0].0 in cfgAfter && cfgAfter[requested[0].0] == requested[0].1 then [] else [requested[0].0])
      + Unconfirmed(requested[1..], cfgAfter)
  }

  function UnverifiedKeys(changes: ShareSettings, cfgAfter: Cfg): seq<string> {
    Unconfirmed(Given(SETTING_KEYS, Values(changes)), cfgAfter)
  }

  ghost predicate Confirms(cfgAfter: Cfg, changes: ShareSettings) {
    forall key <- Requested(changes) :: key in cfgAfter && cfgAfter[key] == Requested(changes)[key]
  }

  lemma {:induction false} UnconfirmedIsEmptyIff(requested: seq<Entry>, cfgAfter: Cfg)
    ensures Unconfirmed(requested, cfgAfter) == []
       <==> forall entry <- requested :: entry.0 in cfgAfter && cfgAfter[entry.0] == entry.1
  {
    if requested != [] {
      UnconfirmedIsEmptyIff(requested[1..], cfgAfter);
      assert forall entry :: entry in requested <==> entry == requested[0] || entry in requested[1..];
    }
  }

  /** Nothing is unverified exactly when every requested setting reads back as requested. */
  lemma {:induction false} NothingUnverifiedIffConfirmed(changes: ShareSettings, cfgAfter: Cfg)
    ensures UnverifiedKeys(changes, cfgAfter) == [] <==> Confirms(cfgAfter, changes)
  {
    var requested := Given(SETTING_KEYS, Values(changes));
    SettingKeysDiffer();
    UnconfirmedIsEmptyIff(requested, cfgAfter);
    if Confirms(cfgAfter, changes) {
      forall entry <- requested ensures entry.0 in cfgAfter && cfgAfter[entry.0] == entry.1 {
        GivenHolds(SETTING_KEYS, Values(changes), entry);
      }
    }
    if UnverifiedKeys(changes, cfgAfter) == [] {
      forall key <- Requested(changes) ensures key in cfgAfter && cfgAfter[key] == Requested(changes)[key] {
        AsMapHolds(requested, key);
      }
    }
  }

  // ---------------------------------------------------------------- the write

  datatype Outcome = Rejected(exitCode: int) | Unreadable | Differs(keys: seq<string>) | Applied(smb: bool)

  function EditCommand(input: EditQueryInput): string { EmcmdCommand(EncodePairs(EditPairs(input))) }

  function SmbCommand(input: EditQueryInput): string {
    EmcmdCommand(EncodePairs(SmbPairs(input.name, input.current, input.changes)))
  }

  function Commands(input: EditQueryInput): seq<string> {
    [EditCommand(input)] + (if SmbNeeded(input.changes) then [SmbCommand(input)] else []) + [CatCommand(input.name)]
  }

  function Judged(input: EditQueryInput, readBack: Option<Cfg>): Outcome {
    match readBack
    case None => Unreadable
    case Some(after) =>
      var mismatched := UnverifiedKeys(input.changes, after);
      if mismatched != [] then Differs(mismatched) else Applied(SmbNeeded(input.changes))
  }

  function Verified<S>(exec: (S, string) -> (S, Response), host: S, input: EditQueryInput): (S, Outcome) {
    var (after, cat) := exec(host, CatCommand(input.name));
    (after, Judged(input, ReadBack(cat)))
  }

  function Flow<S>(exec: (S, string) -> (S, Response), host: S, input: EditQueryInput): (S, Outcome) {
    var (edited, edit) := exec(host, EditCommand(input));
    if edit.exitCode != 0 then (edited, Rejected(edit.exitCode))
    else if !SmbNeeded(input.changes) then Verified(exec, edited, input)
    else
      var (secured, smb) := exec(edited, SmbCommand(input));
      if smb.exitCode != 0 then (secured, Rejected(smb.exitCode)) else Verified(exec, secured, input)
  }

  method SubmitToEmhttpd<S>(shell: Shell<S>, query: string) returns (failure: Option<Outcome>)
    modifies shell
    ensures var (host, response) := shell.exec(old(shell.host), EmcmdCommand(query));
            shell.host == host && failure == if response.exitCode != 0 then Some(Rejected(response.exitCode)) else None
    ensures shell.log == old(shell.log) + [EmcmdCommand(query)]
  {
    var result := shell.Execute(EmcmdCommand(query));
    failure := if result.exitCode != 0 then Some(Rejected(result.exitCode)) else None;
  }

  method ReadShareCfg<S>(shell: Shell<S>, name: string) returns (cfg: Option<Cfg>)
    modifies shell
    ensures var (host, response) := shell.exec(old(shell.host), CatCommand(name));
            shell.host == host && cfg == ReadBack(response)
    ensures shell.log == old(shell.log) + [CatCommand(name)]
  {
    var result := shell.Execute(CatCommand(name));
    if result.exitCode == 0 {
      var parsed := ParseShareCfg(result.stdout);
      return Some(parsed);
    }
    cfg := None;
  }

  lemma {:induction false} LogGrows(log: seq<string>, input: EditQueryInput)
    ensures var all := Commands(input);
            && log + [EditCommand(input)] == log + all[..1]
            && (SmbNeeded(input.changes) ==>
                  |all| == 3 && log + [EditCommand(input)] + [SmbCommand(input)] == log + all[..2]
                  && log + [EditCommand(input)] + [SmbCommand(input)] + [CatCommand(input.name)] == log + all[..3])
            && (!SmbNeeded(input.changes) ==>
                  |all| == 2 && log + [EditCommand(input)] + [CatCommand(input.name)] == log + all[..2])
  {
    SentSoFar(log, EditCommand(input), SmbCommand(input), CatCommand(input.name));
  }

  lemma {:induction false} SentSoFar(log: seq<string>, a: string, b: string, c: string)
    ensures var two, three := [a] + [] + [c], [a] + [b] + [c];
            && log + [a] == log + two[..1] && log + [a] + [c] == log + two[..2]
            && log + [a] == log + three[..1] && log + [a] + [b] == log + three[..2]
            && log + [a] + [b] + [c] == log + three[..3]
  {
  }

  method VerifyWritten<S>(shell: Shell<S>, input: EditQueryInput) returns (outcome: Outcome)
    modifies shell
    ensures (shell.host, outcome) == Verified(shell.exec, old(shell.host), input)
    ensures !outcome.Rejected? && shell.log == old(shell.log) + [CatCommand(input.name)]
  {
    var after := ReadShareCfg(shell, input.name);
    if after.None? {
      return Unreadable;
    }
    var mismatched := UnverifiedKeys(input.changes, after.value);
    outcome := if mismatched != [] then Differs(mismatched) else Applied(SmbNeeded(input.changes));
  }

  /** The edit form, then the SMB form if a setting of it is requested, then the read-back; a refusal ends it there. */
  method ApplyAndVerify<S>(shell: Shell<S>, input: EditQueryInput) returns (outcome: Outcome, ghost sent: nat)
    modifies shell
    ensures (shell.host, outcome) == Flow(shell.exec, old(shell.host), input)
    ensures sent <= |Commands(input)| && shell.log == old(shell.log) + Commands(input)[..sent]
    ensures outcome.Rejected? <==> sent < |Commands(input)|
  {
    LogGrows(shell.log, input);
    var edit := BuildEditQuery(input);
    var editFailure := SubmitToEmhttpd(shell, edit);
    if editFailure.Some? {
      return editFailure.value, 1;
    }
    var smb := BuildSmbQuery(input.name, input.current, input.changes);
    if smb.Some? {
      var smbFailure := SubmitToEmhttpd(shell, smb.value);
      if smbFailure.Some? {
        return smbFailure.value, 2;
      }
    }
    outcome := VerifyWritten(shell, input);
    sent := |Commands(input)|;
  }

  /** Against any host: success is reported exactly when it accepted every form and its cfg confirms every requested key. */
  lemma {:induction false} SuccessIsVerified<S>(exec: (S, string) -> (S, Response), host: S, input: EditQueryInput)
    ensures var (edited, edit) := exec(host, EditCommand(input));
            var (secured, smb) := if SmbNeeded(input.changes) then exec(edited, SmbCommand(input)) else (edited, Response(0, ""));
            var (after, cat) := exec(secured, CatCommand(input.name));
            Flow(exec, host, input).1.Applied? <==>
            (edit.exitCode == 0 && smb.exitCode == 0 && cat.exitCode == 0 && Confirms(Parsed(cat.stdout), input.changes))
  {
    var (edited, edit) := exec(host, EditCommand(input));
    var (secured, smb) := if SmbNeeded(input.changes) then exec(edited, SmbCommand(input)) else (edited, Response(0, ""));
    var (after, cat) := exec(secured, CatCommand(input.name));
    NothingUnverifiedIffConfirmed(input.changes, Parsed(cat.stdout));
  }

  lemma {:induction false} UnconfirmedAre(requested: seq<Entry>, cfgAfter: Cfg, key: string)
    ensures key in Unconfirmed(requested, cfgAfter)
       <==> exists i :: 0 <= i < |requested| && requested[i].0 == key
                        && !(key in cfgAfter && cfgAfter[key] == requested[i].1)
  {
    if requested != [] {
      UnconfirmedAre(requested[1..], cfgAfter, key);
      assert forall i | 0 < i < |requested| :: requested[i] == requested[1..][i - 1];
    }
  }

  lemma {:induction false} UnverifiedAre(changes: ShareSettings, cfgAfter: Cfg, key: string)
    ensures key in UnverifiedKeys(changes, cfgAfter)
       <==> key in Requested(changes) && !(key in cfgAfter && cfgAfter[key] == Requested(changes)[key])
  {
    var requested := Given(SETTING_KEYS, Values(changes));
    UnconfirmedAre(requested, cfgAfter, key);
    SettingKeysDiffer();
    if key in UnverifiedKeys(changes, cfgAfter) {
      var i :| 0 <= i < |requested| && requested[i].0 == key && !(key in cfgAfter && cfgAfter[key] == requested[i].1);
      GivenHolds(SETTING_KEYS, Values(changes), requested[i]);
    }
    if key in Requested(changes) {
      AsMapHolds(requested, key);
      var i :| 0 <= i < |requested| && requested[i] == (key, Requested(changes)[key]);
    }
  }

  /** Against any host, a failure says why: the exit code that was refused, or exactly the keys that do not read back. */
  lemma {:induction false} FailuresSayWhy<S>(exec: (S, string) -> (S, Response), host: S, input: EditQueryInput)
    ensures var (edited, edit) := exec(host, EditCommand(input));
            var (secured, smb) := if SmbNeeded(input.changes) then exec(edited, SmbCommand(input)) else (edited, Response(0, ""));
            var (after, cat) := exec(secured, CatCommand(input.name));
            var outcome := Flow(exec, host, input).1;
            && (outcome.Rejected? <==> edit.exitCode != 0 || smb.exitCode != 0)
            && (outcome.Rejected? ==> outcome.exitCode == if edit.exitCode != 0 then edit.exitCode else smb.exitCode)
            && (outcome.Unreadable? <==> edit.exitCode == 0 && smb.exitCode == 0 && cat.exitCode != 0)
            && (outcome.Differs? ==> forall key :: key in outcome.keys <==>
                  key in Requested(input.changes)
                  && !(key in Parsed(cat.stdout) && Parsed(cat.stdout)[key] == Requested(input.changes)[key]))
  {
    var (edited, edit) := exec(host, EditCommand(input));
    var (secured, smb) := if SmbNeeded(input.changes) then exec(edited, SmbCommand(input)) else (edited, Response(0, ""));
    var (after, cat) := exec(secured, CatCommand(input.name));
    forall key { UnverifiedAre(input.changes, Parsed(cat.stdout), key); }
  }

  /** No host can make a value with a double quote read back: such a request is never reported applied. */
  lemma {:induction false} QuotedValuesAreNeverVerified<S>(exec: (S, string) -> (S, Response), host: S, input: EditQueryInput)
    requires !QuoteFree(Requested(input.changes))
    ensures !Flow(exec, host, input).1.Applied?
  {
    var (edited, _) := exec(host, EditCommand(input));
    var (secured, _) := if SmbNeeded(input.changes) then exec(edited, SmbCommand(input)) else (edited, Response(0, ""));
    var (_, cat) := exec(secured, CatCommand(input.name));
    SuccessIsVerified(exec, host, input);
    ParsedIsQuoteFree(cat.stdout);
  }

  // ---------------------------------------------------------------- a host that stores what it is sent

  /** cfg files by path, as entries in file order. */
  datatype Emhttpd = Emhttpd(files: map<string, seq<Entry>>)

  function EntriesAt(host: Emhttpd, path: string): seq<Entry> { if path in host.files then host.files[path] else [] }

  function Store(host: Emhttpd, pairs: seq<Pair>): (Emhttpd, Response) {
    match FieldOf(pairs, "shareName")
    case None => (host, Response(1, ""))
    case Some(name) =>
      var path := ShareCfgPath(name);
      match FieldOf(pairs, "cmdEditShare")
      case Some(command) =>
        var original := ShareCfgPath(FieldOf(pairs, "shareNameOrig").GetOr(""));
        if command == "Delete" then (Emhttpd(host.files - {original}), Response(0, ""))
        else
          var entries := PutAll(EntriesAt(host, original), Settings(pairs));
          (Emhttpd((host.files - {original})[path := entries]), Response(0, ""))
      case None =>
        if FieldOf(pairs, "changeShareSecurity") == None then (host, Response(1, ""))
        else (Emhttpd(host.files[path := PutAll(EntriesAt(host, path), Settings(pairs))]), Response(0, ""))
  }

  /** Commands as the shell splits them: the emhttpd client and `cat`. */
  function Storing(host: Emhttpd, command: string): (Emhttpd, Response) {
    match QuoteShell.Tokenize(command)
    case None => (host, Response(127, ""))
    case Some(words) =>
      if |words| != 2 then (host, Response(127, ""))
      else if words[0] == EMCMD then
        match ParseForm(words[1])
        case Some(pairs) => Store(host, pairs)
        case None => (host, Response(1, ""))
      else if words[0] == "cat" then
        if words[1] in host.files then (host, Response(0, Printed(host.files[words[1]]))) else (host, Response(1, ""))
      else (host, Response(127, ""))
  }

  // ---------------------------------------------------------------- names

  predicate NameChar(c: char) { Alphanumeric(c) || c == '.' || c == '_' || c == '-' }

  /** What `validateShareName` accepts. */
  predicate ValidShareName(name: string) {
    0 < |name| <= 40 && name[0] != '.' && forall c <- name :: NameChar(c)
  }

  /** A valid name is short, and names a file of its own in the directory: it has no slash and is neither dot name. */
  lemma {:induction false} ValidNamesStayInTheDirectory(name: string)
    requires ValidShareName(name)
    ensures 1 <= |name| <= 40 && '/' !in name && name[0] != '.' && name != "." && name != ".."
  {
    assert !NameChar('/');
  }

  /** And every short name of letters and digits is valid. */
  lemma {:induction false} PlainNamesAreValid(name: string)
    requires 1 <= |name| <= 40 && forall c <- name :: Alphanumeric(c)
    ensures ValidShareName(name)
  {
    assert name[0] in name && !Alphanumeric('.');
  }

  lemma {:induction false} PathsCanBePassed(name: string)
    requires ValidShareName(name)
    ensures QuoteShell.NUL !in ShareCfgPath(name)
  {
    assert !NameChar(QuoteShell.NUL);
    assert QuoteShell.NUL !in name && QuoteShell.NUL !in SHARE_CFG_DIR && QuoteShell.NUL !in ".cfg";
  }

  lemma {:induction false} PiecesCanBePassed(pairs: seq<Pair>)
    requires forall pair <- pairs :: WordKey(pair.0)
    ensures QuoteShell.NUL !in Join(Pieces(pairs), "&")
  {
    if pairs != [] {
      var pair := pairs[0];
      assert pair in pairs;
      ComponentIsEncoded(pair.1);
      assert !Encoded(QuoteShell.NUL) && !WordChar(QuoteShell.NUL);
      assert QuoteShell.NUL !in EncodePair(pair);
      forall other <- pairs[1..] ensures WordKey(other.0) { assert other in pairs; }
      PiecesCanBePassed(pairs[1..]);
      assert Pieces(pairs)[1..] == Pieces(pairs[1..]);
    }
  }

  lemma {:induction false} OccurrenceIsMember(c: char, text: string, i: nat)
    requires OccursAt([c], text, i)
    ensures c in text
  {
    assert text[i] == text[i..][0] == [c][0];
  }

  lemma {:induction false} QuotingAddsOnlyQuotes(value: string)
    requires '\'' !in value
    ensures QuoteShell.QuoteForShell(value) == "'" + value + "'"
  {
    forall i: nat ensures !OccursAt(['\''], value, i) {
      if OccursAt(['\''], value, i) { OccurrenceIsMember('\'', value, i); }
    }
    NothingToReplace(value, ['\''], "'\\''");
  }

  lemma {:induction false} CfgPathIs(name: string)
    requires '\'' !in name
    ensures ShareCfgPath(name) == "/boot/config/shares/" + (name + ".cfg") && '\'' !in ShareCfgPath(name)
  {
    assert SHARE_CFG_DIR + "/" == "/boot/config/shares/" && '\'' !in SHARE_CFG_DIR && '\'' !in ".cfg";
  }

  /** The command that reads a share's cfg, in full: validated names need no escaping. */
  lemma {:induction false} CatCommandText(name: string)
    requires ValidShareName(name)
    ensures CatCommand(name) == "cat" + (" " + ("'" + ("/boot/config/shares/" + (name + ".cfg")) + "'"))
  {
    assert !NameChar('\'');
    CfgPathIs(name);
    QuotingAddsOnlyQuotes(ShareCfgPath(name));
  }

  /** The command that looks for the first entry of a share, in full. */
  lemma {:induction false} FindCommandText(name: string)
    requires ValidShareName(name)
    ensures FindCommand(name) == "find " + ("'" + ("/mnt/user/" + name) + "'") + " -mindepth 1 -print -quit 2>/dev/null"
  {
    assert !NameChar('\'');
    assert SHARES_ROOT + "/" + name == "/mnt/user/" + name;
    QuotingAddsOnlyQuotes("/mnt/user/" + name);
  }

  lemma {:induction false} EmcmdCommandText(query: string)
    requires '\'' !in query
    ensures EmcmdCommand(query) == ("'" + "/usr/local/sbin/emcmd" + "'") + (" " + ("'" + query + "'"))
  {
    QuotingAddsOnlyQuotes(EMCMD);
    QuotingAddsOnlyQuotes(query);
  }

  /** The emhttpd client is run with the query as its one argument. */
  lemma {:induction false} EmcmdReceivesTheForm(host: Emhttpd, pairs: seq<Pair>)
    requires pairs != [] && forall pair <- pairs :: WordKey(pair.0)
    ensures Storing(host, EmcmdCommand(EncodePairs(pairs))) == Store(host, pairs)
  {
    PiecesCanBePassed(pairs);
    EmcmdReceivesTheQuery(EncodePairs(pairs));
    forall pair <- pairs ensures PlainKey(pair.0) { WordsArePlain(pair.0); }
    FormRoundTrip(pairs);
  }

  lemma {:induction false} EmcmdReceivesTheQuery(query: string)
    requires QuoteShell.NUL !in query
    ensures QuoteShell.Tokenize(EmcmdCommand(query)) == Some([EMCMD, query])
  {
    assert QuoteShell.NUL !in EMCMD;
    QuoteShell.QuotedPair(EMCMD, query);
  }

  lemma {:induction false} CatReadsTheFile(host: Emhttpd, name: string)
    requires ValidShareName(name)
    ensures var path := ShareCfgPath(name);
            Storing(host, CatCommand(name))
              == (host, if path in host.files then Response(0, Printed(host.files[path])) else Response(1, ""))
  {
    var path := ShareCfgPath(name);
    PathsCanBePassed(name);
    QuoteShell.QuotedIsOneWordIffNulFree(path);
    assert forall c <- "cat" :: QuoteShell.PlainChar(c);
    QuoteShell.PlainWordThen("cat", QuoteShell.QuoteForShell(path));
    assert ["cat"] + [path] == ["cat", path] && |EMCMD| != |"cat"|;
  }

  lemma {:induction false} FieldPairsAreWords(merged: Cfg, fields: seq<string>)
    requires forall field <- fields :: WordKey(field)
    ensures forall pair <- FieldPairs(merged, fields) :: WordKey(pair.0)
  {
    if fields != [] {
      var last, before := fields[|fields| - 1], fields[..|fields| - 1];
      assert last in fields;
      forall field <- before ensures WordKey(field) { assert field in fields; }
      FieldPairsAreWords(merged, before);
    }
  }

  lemma {:induction false} FormsAreWords(input: EditQueryInput)
    ensures forall pair <- EditPairs(input) :: WordKey(pair.0)
    ensures forall pair <- SmbPairs(input.name, input.current, input.changes) :: WordKey(pair.0)
  {
    FieldsAreWords();
    FieldPairsAreWords(Merged(input.current, input.changes), EDIT_FIELDS);
    FieldPairsAreWords(Merged(input.current, input.changes), SMB_FIELDS);
    forall key | Control(key) ensures WordKey(key) { ControlsAreWords(key); }
    assert Control("shareName") && Control("shareNameOrig") && Control("cmdEditShare") && Control("changeShareSecurity");
  }

  // ---------------------------------------------------------------- writing to the storing host

  function EditFields(input: EditQueryInput): seq<Entry> { FieldPairs(Merged(input.current, input.changes), EDIT_FIELDS) }

  function SmbFields(input: EditQueryInput): seq<Entry> { FieldPairs(Merged(input.current, input.changes), SMB_FIELDS) }

  /** The share's entries once both forms are stored. */
  function Final(host: Emhttpd, input: EditQueryInput): seq<Entry> {
    var edited := PutAll(EntriesAt(host, ShareCfgPath(input.nameOrig)), EditFields(input));
    if SmbNeeded(input.changes) then PutAll(edited, SmbFields(input)) else edited
  }

  function Edited(host: Emhttpd, input: EditQueryInput): Emhttpd {
    var original := ShareCfgPath(input.nameOrig);
    Emhttpd((host.files - {original})[ShareCfgPath(input.name) := PutAll(EntriesAt(host, original), EditFields(input))])
  }

  function Written(host: Emhttpd, input: EditQueryInput): Emhttpd {
    Emhttpd((host.files - {ShareCfgPath(input.nameOrig)})[ShareCfgPath(input.name) := Final(host, input)])
  }

  lemma {:induction false} CommandsDiffer(command: Command)
    ensures Spelling(command) == "Delete" <==> command == Delete
  {
  }

  lemma {:induction false} EditIsStored(host: Emhttpd, input: EditQueryInput)
    requires input.command != Delete
    ensures Storing(host, EditCommand(input)) == (Edited(host, input), Response(0, ""))
  {
    FormsAreWords(input);
    EmcmdReceivesTheForm(host, EditPairs(input));
    EditFormCarries(input);
    CommandsDiffer(input.command);
  }

  lemma {:induction false} SmbIsStored(host: Emhttpd, input: EditQueryInput)
    ensures var path := ShareCfgPath(input.name);
            Storing(host, SmbCommand(input))
              == (Emhttpd(host.files[path := PutAll(EntriesAt(host, path), SmbFields(input))]), Response(0, ""))
  {
    FormsAreWords(input);
    EmcmdReceivesTheForm(host, SmbPairs(input.name, input.current, input.changes));
    SmbFormCarries(input.name, input.current, input.changes);
  }

  lemma {:induction false} ReadBackJudges(host: Emhttpd, input: EditQueryInput)
    requires ValidShareName(input.name) && ShareCfgPath(input.name) in host.files
    ensures Verified(Storing, host, input)
         == (host, Judged(input, Some(Parsed(Printed(host.files[ShareCfgPath(input.name)])))))
  {
    CatReadsTheFile(host, input.name);
  }

  lemma {:induction false} AcceptedFormsAreVerified<S>(exec: (S, string) -> (S, Response), host: S, input: EditQueryInput,
                                                       edited: S, written: S)
    requires exec(host, EditCommand(input)) == (edited, Response(0, ""))
    requires if SmbNeeded(input.changes) then exec(edited, SmbCommand(input)) == (written, Response(0, "")) else edited == written
    ensures Flow(exec, host, input) == Verified(exec, written, input)
  {
  }

  lemma {:induction false} SmbAfterEdit(host: Emhttpd, input: EditQueryInput)
    requires SmbNeeded(input.changes)
    ensures var path, edited := ShareCfgPath(input.name), Edited(host, input);
            Emhttpd(edited.files[path := PutAll(EntriesAt(edited, path), SmbFields(input))]) == Written(host, input)
  {
    var path, original := ShareCfgPath(input.name), ShareCfgPath(input.nameOrig);
    StoredTwice(host.files - {original}, path, PutAll(EntriesAt(host, original), EditFields(input)), Final(host, input));
  }

  lemma {:induction false} StoredTwice(files: map<string, seq<Entry>>, path: string, first: seq<Entry>, second: seq<Entry>)
    ensures files[path := first][path := second] == files[path := second]
  {
  }

  lemma {:induction false} SmbFollowsEdit(host: Emhttpd, input: EditQueryInput)
    requires SmbNeeded(input.changes)
    ensures Storing(Edited(host, input), SmbCommand(input)) == (Written(host, input), Response(0, ""))
  {
    SmbIsStored(Edited(host, input), input);
    SmbAfterEdit(host, input);
  }

  /** From command strings to files: quoting, splitting, form reading and storing compose to storing the two forms' fields. */
  lemma {:induction false} WriteReachesTheFile(host: Emhttpd, input: EditQueryInput)
    requires ValidShareName(input.name) && input.command != Delete
    ensures Flow(Storing, host, input) == (Written(host, input), Judged(input, Some(Parsed(Printed(Final(host, input))))))
  {
    EditIsStored(host, input);
    if SmbNeeded(input.changes) { SmbFollowsEdit(host, input); }
    AcceptedFormsAreVerified(Storing, host, input, Edited(host, input), Written(host, input));
    ReadBackJudges(Written(host, input), input);
  }

  /** The keys a write puts on the wire. */
  predicate Submitted(input: EditQueryInput, key: string) {
    key in EDIT_FIELDS || (SmbNeeded(input.changes) && key in SMB_FIELDS)
  }

  /** What the stored cfg says of one key: the merged value if the key is submitted, otherwise what it said before. */
  lemma {:induction false} StoredValue(host: Emhttpd, input: EditQueryInput, key: string)
    ensures var before, after := AsMap(EntriesAt(host, ShareCfgPath(input.nameOrig))), AsMap(Final(host, input));
            if Submitted(input, key) then key in after && after[key] == ValueIn(Merged(input.current, input.changes), key)
            else (key in after <==> key in before) && (key in before ==> after[key] == before[key])
  {
    var merged := Merged(input.current, input.changes);
    var entries := EntriesAt(host, ShareCfgPath(input.nameOrig));
    var edited := PutAll(entries, EditFields(input));
    PutAllStores(entries, EditFields(input));
    PutAllStores(edited, SmbFields(input));
    FieldPairsHold(merged, EDIT_FIELDS, key);
    FieldPairsHold(merged, SMB_FIELDS, key);
  }

  /** Every key that can be requested is on one of the forms sent. */
  lemma {:induction false} RequestedIsSubmitted(input: EditQueryInput, key: string)
    requires key in Requested(input.changes)
    ensures Submitted(input, key)
  {
    var values := Values(input.changes);
    AsMapHolds(Given(SETTING_KEYS, values), key);
    var i := GivenComesFrom(SETTING_KEYS, values, (key, Requested(input.changes)[key]));
    var places := [0, 1, 4, 5];
    if i < 4 {
      assert key == EDIT_FIELDS[places[i]];
    } else {
      assert key == SMB_FIELDS[i - 4];
    }
  }

  lemma {:induction false} GivenComesFrom(keys: seq<string>, values: seq<Option<string>>, entry: Entry) returns (i: nat)
    requires |keys| == |values| && entry in Given(keys, values)
    ensures i < |keys| && keys[i] == entry.0 && values[i] == Some(entry.1)
  {
    if values[0].Some? && entry == (keys[0], values[0].value) {
      i := 0;
    } else {
      assert entry in Given(keys[1..], values[1..]);
      var j := GivenComesFrom(keys[1..], values[1..], entry);
      i := j + 1;
    }
  }

  /** Requested keys are stored as requested, whatever the cfg held and whatever was read before. */
  lemma {:induction false} RequestedKeysAreStored(host: Emhttpd, input: EditQueryInput)
    ensures Confirms(AsMap(Final(host, input)), input.changes)
  {
    forall key <- Requested(input.changes)
      ensures key in AsMap(Final(host, input)) && AsMap(Final(host, input))[key] == Requested(input.changes)[key]
    {
      RequestedIsSubmitted(input, key);
      StoredValue(host, input, key);
    }
  }

  /** The keys the cfg had and nobody asked to change all keep their values. */
  ghost predicate KeepsTheRest(host: Emhttpd, input: EditQueryInput) {
    var before, after := AsMap(EntriesAt(host, ShareCfgPath(input.nameOrig))), AsMap(Final(host, input));
    forall key <- before | key !in Requested(input.changes) :: key in after && after[key] == before[key]
  }

  /** That holds exactly when the forms repeat what the cfg says of every unrequested key on them. */
  lemma {:induction false} KeepsTheRestIff(host: Emhttpd, input: EditQueryInput)
    ensures var before := AsMap(EntriesAt(host, ShareCfgPath(input.nameOrig)));
            KeepsTheRest(host, input) <==>
            (forall key <- before | key !in Requested(input.changes) && Submitted(input, key) ::
               ValueIn(CREATE_DEFAULTS + input.current, key) == before[key])
  {
    forall key ensures key !in Requested(input.changes) ==>
                         ValueIn(Merged(input.current, input.changes), key) == ValueIn(CREATE_DEFAULTS + input.current, key) {}
    forall key { StoredValue(host, input, key); }
  }

  /** In particular when the settings read before the write are still the host's: the edit is a frame-safe update. */
  lemma {:induction false} FreshReadKeepsTheRest(host: Emhttpd, input: EditQueryInput)
    requires input.current == AsMap(EntriesAt(host, ShareCfgPath(input.nameOrig)))
    ensures KeepsTheRest(host, input)
  {
    KeepsTheRestIff(host, input);
  }

  lemma {:induction false} FieldPairsArePrintable(merged: Cfg, fields: seq<string>)
    requires QuoteFree(merged) && forall field <- fields :: WordKey(field)
    ensures Printable(FieldPairs(merged, fields))
  {
    if fields != [] {
      var last, before := fields[|fields| - 1], fields[..|fields| - 1];
      assert last in fields;
      forall field <- before ensures WordKey(field) { assert field in fields; }
      FieldPairsArePrintable(merged, before);
    }
  }

  lemma {:induction false} FinalIsPrintable(host: Emhttpd, input: EditQueryInput)
    requires Printable(EntriesAt(host, ShareCfgPath(input.nameOrig)))
    requires QuoteFree(input.current) && QuoteFree(Requested(input.changes))
    ensures Printable(Final(host, input))
  {
    var merged := Merged(input.current, input.changes);
    assert QuoteFree(CREATE_DEFAULTS);
    FieldsAreWords();
    FieldPairsArePrintable(merged, EDIT_FIELDS);
    FieldPairsArePrintable(merged, SMB_FIELDS);
    var entries := EntriesAt(host, ShareCfgPath(input.nameOrig));
    PutAllIsPrintable(entries, EditFields(input));
    PutAllIsPrintable(PutAll(entries, EditFields(input)), SmbFields(input));
  }

  /**
   On a host that stores what it is sent, success is reported exactly when no
   requested value contains a double quote (a comment may): such a value is
   stored, but the cfg file cannot say it back.
   */
  lemma {:induction false} VerifiedIffQuoteFree(host: Emhttpd, input: EditQueryInput)
    requires ValidShareName(input.name) && input.command != Delete
    requires Printable(EntriesAt(host, ShareCfgPath(input.nameOrig))) && QuoteFree(input.current)
    ensures Flow(Storing, host, input).1.Applied? <==> QuoteFree(Requested(input.changes))
  {
    var final := Final(host, input);
    WriteReachesTheFile(host, input);
    NothingUnverifiedIffConfirmed(input.changes, Parsed(Printed(final)));
    if QuoteFree(Requested(input.changes)) {
      FinalIsPrintable(host, input);
      FileRoundTrip(final);
      RequestedKeysAreStored(host, input);
    } else {
      ParsedIsQuoteFree(Printed(final));
    }
  }

  /** Afterwards one key says what its setting asks for, or what it said before. */
  ghost predicate Becomes(before: Cfg, after: Cfg, key: string, setting: Option<string>) {
    match setting
    case Some(value) => key in after && after[key] == value
    case None => key in before ==> key in after && after[key] == before[key]
  }

  ghost predicate EditedAs(before: Cfg, after: Cfg, changes: ShareSettings) {
    && Becomes(before, after, "shareComment", changes.comment)
    && Becomes(before, after, "shareAllocator", changes.allocator)
    && Becomes(before, after, "shareUseCache", changes.useCache)
    && Becomes(before, after, "shareCachePool", changes.cachePool)
    && Becomes(before, after, "shareExport", changes.smbExport)
    && Becomes(before, after, "shareSecurity", changes.smbSecurity)
    && forall key <- before | !SettingKey(key) :: key in after && after[key] == before[key]
  }

  lemma {:induction false} KeptAndConfirmedIsEdited(host: Emhttpd, input: EditQueryInput)
    requires KeepsTheRest(host, input) && Confirms(AsMap(Final(host, input)), input.changes)
    ensures EditedAs(AsMap(EntriesAt(host, ShareCfgPath(input.nameOrig))), AsMap(Final(host, input)), input.changes)
  {
    RequestedByKey(input.changes);
  }

  function EditInput(host: Emhttpd, name: string, changes: ShareSettings): EditQueryInput
    requires ShareCfgPath(name) in host.files
  {
    EditQueryInput(name, name, Parsed(Printed(host.files[ShareCfgPath(name)])), changes, Apply)
  }

  lemma {:induction false} EditKeepsOrSets(host: Emhttpd, name: string, changes: ShareSettings)
    requires ShareCfgPath(name) in host.files && Printable(host.files[ShareCfgPath(name)])
    ensures EditedAs(AsMap(host.files[ShareCfgPath(name)]), AsMap(Final(host, EditInput(host, name, changes))), changes)
  {
    var input := EditInput(host, name, changes);
    FileRoundTrip(host.files[ShareCfgPath(name)]);
    RequestedKeysAreStored(host, input);
    FreshReadKeepsTheRest(host, input);
    KeptAndConfirmedIsEdited(host, input);
  }

  /** Only the written share's file changes, and the one it replaces goes. */
  ghost predicate OnlyWrites(before: Emhttpd, after: Emhttpd, original: string, path: string, entries: seq<Entry>) {
    && after.files.Keys == before.files.Keys - {original} + {path}
    && after.files[path] == entries
    && forall other <- before.files | other != path && other != original :: after.files[other] == before.files[other]
  }

  lemma {:induction false} FlowOnStoringHost(host: Emhttpd, input: EditQueryInput) returns (after: Emhttpd, outcome: Outcome)
    requires ValidShareName(input.name) && input.command != Delete
    requires Printable(EntriesAt(host, ShareCfgPath(input.nameOrig))) && QuoteFree(input.current)
    ensures (after, outcome) == Flow(Storing, host, input)
    ensures outcome.Applied? <==> QuoteFree(Requested(input.changes))
    ensures OnlyWrites(host, after, ShareCfgPath(input.nameOrig), ShareCfgPath(input.name), Final(host, input))
  {
    VerifiedIffQuoteFree(host, input);
    WriteReachesTheFile(host, input);
    WrittenIs(host, input);
    after, outcome := Written(host, input), Judged(input, Some(Parsed(Printed(Final(host, input)))));
  }

  lemma {:induction false} OnlyThatFile(before: Emhttpd, after: Emhttpd, original: string, path: string, entries: seq<Entry>)
    requires OnlyWrites(before, after, original, path, entries)
    requires original == path || original !in before.files
    ensures after.files == before.files[path := entries]
  {
  }

  lemma {:induction false} WrittenIs(host: Emhttpd, input: EditQueryInput)
    ensures OnlyWrites(host, Written(host, input), ShareCfgPath(input.nameOrig), ShareCfgPath(input.name), Final(host, input))
  {
  }

  /**
   An edit of an existing share from its own read-back: each given setting is
   stored under its key, every other key of the share and every other share keep
   what they had, and the tool says so exactly when the file can.
   */
  lemma {:induction false} EditOnStoringHost(host: Emhttpd, name: string, changes: ShareSettings)
    returns (after: Emhttpd, outcome: Outcome, entries: seq<Entry>)
    requires ValidShareName(name) && ShareCfgPath(name) in host.files && Printable(host.files[ShareCfgPath(name)])
    ensures (after, outcome) == Flow(Storing, host, EditInput(host, name, changes))
    ensures outcome.Applied? <==> QuoteFree(Requested(changes))
    ensures after.files == host.files[ShareCfgPath(name) := entries]
    ensures EditedAs(AsMap(host.files[ShareCfgPath(name)]), AsMap(entries), changes)
  {
    var input := EditInput(host, name, changes);
    ParsedIsQuoteFree(Printed(host.files[ShareCfgPath(name)]));
    after, outcome := FlowOnStoringHost(host, input);
    entries := Final(host, input);
    OnlyThatFile(host, after, ShareCfgPath(name), ShareCfgPath(name), entries);
    EditKeepsOrSets(host, name, changes);
  }

  lemma {:induction false} NewShareStores(host: Emhttpd, input: EditQueryInput, key: string)
    requires input.nameOrig == "" && input.current == map[] && ShareCfgPath("") !in host.files
    ensures var after := AsMap(Final(host, input));
            && (Submitted(input, key) ==> key in after && after[key] == ValueIn(CREATE_DEFAULTS + Requested(input.changes), key))
            && (!Submitted(input, key) ==> key !in after)
  {
    StoredValue(host, input, key);
    assert CREATE_DEFAULTS + input.current == CREATE_DEFAULTS;
    assert AsMap(EntriesAt(host, ShareCfgPath(""))) == map[];
  }

  /** The settings of a new share: those given, and the defaults for the others. */
  ghost predicate CreatedAs(after: Cfg, changes: ShareSettings) {
    && Says(after, "shareComment", Some(changes.comment.GetOr("")))
    && Says(after, "shareAllocator", Some(changes.allocator.GetOr("highwater")))
    && Says(after, "shareUseCache", Some(changes.useCache.GetOr("no")))
    && Says(after, "shareCachePool", Some(changes.cachePool.GetOr("")))
    && Says(after, "shareCOW", Some("auto"))
    && (SmbNeeded(changes) ==>
          && Says(after, "shareExport", Some(changes.smbExport.GetOr("-")))
          && Says(after, "shareSecurity", Some(changes.smbSecurity.GetOr("public")))
          && Says(after, "shareCaseSensitive", Some("auto")))
  }

  lemma {:induction false} CreateStoresEditFields(host: Emhttpd, input: EditQueryInput)
    requires input.nameOrig == "" && input.current == map[] && ShareCfgPath("") !in host.files
    ensures var after, changes := AsMap(Final(host, input)), input.changes;
            && Says(after, "shareComment", Some(changes.comment.GetOr("")))
            && Says(after, "shareAllocator", Some(changes.allocator.GetOr("highwater")))
            && Says(after, "shareUseCache", Some(changes.useCache.GetOr("no")))
            && Says(after, "shareCachePool", Some(changes.cachePool.GetOr("")))
            && Says(after, "shareCOW", Some("auto"))
  {
    assert EDIT_FIELDS[0] == "shareComment" && EDIT_FIELDS[1] == "shareAllocator" && EDIT_FIELDS[4] == "shareUseCache";
    assert EDIT_FIELDS[5] == "shareCachePool" && EDIT_FIELDS[7] == "shareCOW";
    NewShareStores(host, input, "shareComment");
    NewShareStores(host, input, "shareAllocator");
    NewShareStores(host, input, "shareUseCache");
    NewShareStores(host, input, "shareCachePool");
    NewShareStores(host, input, "shareCOW");
    DefaultsUnlessRequested(input.changes);
  }

  lemma {:induction false} CreateStoresSmbFields(host: Emhttpd, input: EditQueryInput)
    requires input.nameOrig == "" && input.current == map[] && ShareCfgPath("") !in host.files
    requires SmbNeeded(input.changes)
    ensures var after, changes := AsMap(Final(host, input)), input.changes;
            && Says(after, "shareExport", Some(changes.smbExport.GetOr("-")))
            && Says(after, "shareSecurity", Some(changes.smbSecurity.GetOr("public")))
            && Says(after, "shareCaseSensitive", Some("auto"))
  {
    assert SMB_FIELDS[0] == "shareExport" && SMB_FIELDS[1] == "shareSecurity" && SMB_FIELDS[2] == "shareCaseSensitive";
    NewShareStores(host, input, "shareExport");
    NewShareStores(host, input, "shareSecurity");
    NewShareStores(host, input, "shareCaseSensitive");
    DefaultsUnlessRequested(input.changes);
  }

  lemma {:induction false} DefaultsUnlessRequested(changes: ShareSettings)
    ensures var cfg := CREATE_DEFAULTS + Requested(changes);
            && ValueIn(cfg, "shareComment") == changes.comment.GetOr("")
            && ValueIn(cfg, "shareAllocator") == changes.allocator.GetOr("highwater")
            && ValueIn(cfg, "shareUseCache") == changes.useCache.GetOr("no")
            && ValueIn(cfg, "shareCachePool") == changes.cachePool.GetOr("")
            && ValueIn(cfg, "shareExport") == changes.smbExport.GetOr("-")
            && ValueIn(cfg, "shareSecurity") == changes.smbSecurity.GetOr("public")
            && ValueIn(cfg, "shareCOW") == "auto" && ValueIn(cfg, "shareCaseSensitive") == "auto"
  {
    RequestedByKey(changes);
    DefaultsByKey();
    assert !SettingKey("shareCOW") && !SettingKey("shareCaseSensitive");
  }

  lemma {:induction false} DefaultsByKey()
    ensures Says(CREATE_DEFAULTS, "shareComment", None) && Says(CREATE_DEFAULTS, "shareCachePool", None)
    ensures Says(CREATE_DEFAULTS, "shareAllocator", Some("highwater")) && Says(CREATE_DEFAULTS, "shareUseCache", Some("no"))
    ensures Says(CREATE_DEFAULTS, "shareExport", Some("-")) && Says(CREATE_DEFAULTS, "shareSecurity", Some("public"))
    ensures Says(CREATE_DEFAULTS, "shareCOW", Some("auto")) && Says(CREATE_DEFAULTS, "shareCaseSensitive", Some("auto"))
  {
    assert "shareComment" != "shareAllocator";
  }

  /** A new share on a storing host: its cfg holds the given settings and the defaults, and no other share changes. */
  lemma {:induction false} CreateOnStoringHost(host: Emhttpd, name: string, changes: ShareSettings)
    returns (after: Emhttpd, outcome: Outcome, entries: seq<Entry>)
    requires ValidShareName(name) && ShareCfgPath(name) !in host.files && ShareCfgPath("") !in host.files
    ensures (after, outcome) == Flow(Storing, host, EditQueryInput(name, "", map[], changes, AddShare))
    ensures outcome.Applied? <==> QuoteFree(Requested(changes))
    ensures after.files == host.files[ShareCfgPath(name) := entries]
    ensures CreatedAs(AsMap(entries), changes)
  {
    var input := EditQueryInput(name, "", map[], changes, AddShare);
    after, outcome := FlowOnStoringHost(host, input);
    entries := Final(host, input);
    OnlyThatFile(host, after, ShareCfgPath(""), ShareCfgPath(name), entries);
    CreateStoresEditFields(host, input);
    if SmbNeeded(changes) { CreateStoresSmbFields(host, input); }
  }
}
