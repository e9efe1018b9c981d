/** Deleting an empty share's configuration: the checks, the cut-down form, and the read-back. */
module ShareDelete {
  import opened Wrappers
  import opened Strings
  import opened FormEncoding
  import opened ShareCfg
  import opened Share
  import opened ShareWrite
  import QuoteShell

  // ---------------------------------------------------------------- the delete form

  /** `/^(shareName|shareNameOrig|cmdEditShare)=/` */
  predicate NamePiece(piece: string) {
    "shareName=" <= piece || "shareNameOrig=" <= piece || "cmdEditShare=" <= piece
  }

  function NamePieces(pieces: seq<string>): seq<string> {
    if pieces == [] then []
    else (if NamePiece(pieces[0]) then [pieces[0]] else []) + NamePieces(pieces[1..])
  }

  function DeleteQueryOnly(fullQuery: string): string { Join(NamePieces(Split(fullQuery, "&")), "&") }

  function NamePairs(input: EditQueryInput): seq<Pair> {
    [("shareName", input.name), ("shareNameOrig", input.nameOrig), ("cmdEditShare", Spelling(input.command))]
  }

  lemma {:induction false} PlainRest(key: string)
    requires PlainKey(key) && key != ""
    ensures key[0] != '=' && PlainKey(key[1..])
  {
    assert key[0] in key;
  }

  lemma {:induction false} KeyIsThePrefix(wanted: string, key: string, value: string)
    requires PlainKey(wanted) && PlainKey(key)
    ensures wanted + "=" <= key + ("=" + value) <==> wanted == key
    decreases |wanted|
  {
    var start, piece := wanted + "=", key + ("=" + value);
    if wanted == "" {
      assert start[0] == '=' && piece[0] == if key == "" then '=' else key[0];
      if key == "" { assert piece[..1] == start; } else { PlainRest(key); }
    } else if key == "" {
      PlainRest(wanted);
      assert start[0] == wanted[0] && piece[0] == '=';
    } else {
      PlainRest(wanted);
      PlainRest(key);
      KeyIsThePrefix(wanted[1..], key[1..], value);
      assert start[1..] == wanted[1..] + "=" && piece[1..] == key[1..] + ("=" + value);
      assert start == [wanted[0]] + start[1..] && piece == [key[0]] + piece[1..];
      assert wanted == [wanted[0]] + wanted[1..] && key == [key[0]] + key[1..];
      assert start <= piece <==> wanted[0] == key[0] && start[1..] <= piece[1..];
    }
  }

  lemma {:induction false} NamePieceIff(pair: Pair)
    requires PlainKey(pair.0)
    ensures NamePiece(EncodePair(pair)) <==> pair.0 == "shareName" || pair.0 == "shareNameOrig" || pair.0 == "cmdEditShare"
  {
    var value := EncodeURIComponent(pair.1);
    Reassociate(pair.0, "=", value);
    KeyIsThePrefix("shareName", pair.0, value);
    KeyIsThePrefix("shareNameOrig", pair.0, value);
    KeyIsThePrefix("cmdEditShare", pair.0, value);
    assert "shareName" + "=" == "shareName=" && "shareNameOrig" + "=" == "shareNameOrig=" && "cmdEditShare" + "=" == "cmdEditShare=";
  }

  lemma {:induction false} NamePiecesConcatenation(a: seq<string>, b: seq<string>)
    ensures NamePieces(a + b) == NamePieces(a) + NamePieces(b)
  {
    if a == [] {
      assert a + b == b;
    } else {
      var first: seq<string> := if NamePiece(a[0]) then [a[0]] else [];
      assert (a + b)[1..] == a[1..] + b;
      NamePiecesConcatenation(a[1..], b);
      assert first + (NamePieces(a[1..]) + NamePieces(b)) == (first + NamePieces(a[1..])) + NamePieces(b);
    }
  }

  lemma {:induction false} PiecesConcatenation(a: seq<Pair>, b: seq<Pair>)
    ensures Pieces(a + b) == Pieces(a) + Pieces(b)
  {
    if a == [] {
      assert a + b == b;
    } else {
      assert (a + b)[1..] == a[1..] + b;
      PiecesConcatenation(a[1..], b);
    }
  }

  lemma {:induction false} FieldsAreDropped(pairs: seq<Pair>)
    requires forall pair <- pairs :: PlainKey(pair.0) && !Control(pair.0)
    ensures NamePieces(Pieces(pairs)) == []
  {
    if pairs != [] {
      assert pairs[0] in pairs;
      NamePieceIff(pairs[0]);
      forall pair <- pairs[1..] ensures PlainKey(pair.0) && !Control(pair.0) { assert pair in pairs; }
      FieldsAreDropped(pairs[1..]);
    }
  }

  lemma {:induction false} NamesAreKept(pairs: seq<Pair>)
    requires forall pair <- pairs :: pair.0 == "shareName" || pair.0 == "shareNameOrig" || pair.0 == "cmdEditShare"
    ensures NamePieces(Pieces(pairs)) == Pieces(pairs)
  {
    if pairs != [] {
      assert pairs[0] in pairs;
      ControlsAreWords(pairs[0].0);
      WordsArePlain(pairs[0].0);
      NamePieceIff(pairs[0]);
      NamesAreKept(pairs[1..]);
    }
  }

  /** Whatever the settings, cutting down the full edit form leaves exactly the two names and the command. */
  lemma {:induction false} DeleteQueryIsThreePairs(input: EditQueryInput)
    ensures DeleteQueryOnly(EncodePairs(EditPairs(input))) == EncodePairs(NamePairs(input))
  {
    FormsArePlain(input);
    BodySplits(EditPairs(input));
    OnlyNamesAreKept(input);
  }

  lemma {:induction false} OnlyNamesAreKept(input: EditQueryInput)
    ensures NamePieces(Pieces(EditPairs(input))) == Pieces(NamePairs(input))
  {
    var names := [("shareName", input.name), ("shareNameOrig", input.nameOrig)];
    var fields := EditFields(input);
    var command := [("cmdEditShare", Spelling(input.command))];
    EditFieldsAreDropped(input);
    NamesAreKept(names);
    NamesAreKept(command);
    MiddleIsDropped(names, fields, command);
    assert names + command == NamePairs(input);
  }

  lemma {:induction false} MiddleIsDropped(a: seq<Pair>, b: seq<Pair>, c: seq<Pair>)
    ensures NamePieces(Pieces(b)) == [] && NamePieces(Pieces(a)) == Pieces(a) && NamePieces(Pieces(c)) == Pieces(c) ==>
              NamePieces(Pieces(a + b + c)) == Pieces(a + c)
  {
    KeptPieceByPiece(a, b, c);
    PiecesConcatenation(a, c);
    assert Pieces(a) + [] == Pieces(a);
  }

  lemma {:induction false} EditFieldsAreDropped(input: EditQueryInput)
    ensures NamePieces(Pieces(EditFields(input))) == []
  {
    var merged := Merged(input.current, input.changes);
    FieldsAreWords();
    FieldsAreNoControls();
    FieldPairsArePlain(merged, EDIT_FIELDS);
    FieldPairKeys(merged, EDIT_FIELDS);
    FieldsAreDropped(EditFields(input));
  }

  lemma {:induction false} FieldPairKeys(merged: Cfg, fields: seq<string>)
    ensures forall pair <- FieldPairs(merged, fields) :: pair.0 in fields
  {
    if fields != [] {
      var last, before := fields[|fields| - 1], fields[..|fields| - 1];
      FieldPairKeys(merged, before);
      forall pair <- FieldPairs(merged, fields) ensures pair.0 in fields { InLastOrBefore(fields, pair.0); }
    }
  }

  lemma {:induction false} KeptPieceByPiece(a: seq<Pair>, b: seq<Pair>, c: seq<Pair>)
    ensures NamePieces(Pieces(a + b + c)) == NamePieces(Pieces(a)) + NamePieces(Pieces(b)) + NamePieces(Pieces(c))
  {
    PiecesConcatenation(a + b, c);
    PiecesConcatenation(a, b);
    NamePiecesConcatenation(Pieces(a + b), Pieces(c));
    NamePiecesConcatenation(Pieces(a), Pieces(b));
  }

  // ---------------------------------------------------------------- the delete

  /** The white space `trim` removes. */
  predicate JsSpace(c: char) {
    '\U{0009}' <= c <= '\U{000D}' || c == ' ' || c == '\U{00A0}' || c == '\U{1680}' || '\U{2000}' <= c <= '\U{200A}'
    || c == '\U{2028}' || c == '\U{2029}' || c == '\U{202F}' || c == '\U{205F}' || c == '\U{3000}' || c == '\U{FEFF}'
  }

  function TrimStart(s: string): string { if s != "" && JsSpace(s[0]) then TrimStart(s[1..]) else s }

  function TrimEnd(s: string): string { if s != "" && JsSpace(s[|s| - 1]) then TrimEnd(s[..|s| - 1]) else s }

  function Trim(s: string): string { TrimEnd(TrimStart(s)) }

  lemma {:induction false} TrimStartIsEmptyIffBlank(s: string)
    ensures TrimStart(s) == "" <==> forall c <- s :: JsSpace(c)
    ensures TrimStart(s) != "" ==> !JsSpace(TrimStart(s)[0])
  {
    if s != "" {
      assert forall c <- s :: c == s[0] || c in s[1..];
      TrimStartIsEmptyIffBlank(s[1..]);
    }
  }

  lemma {:induction false} TrimEndKeepsAStart(s: string)
    requires s != "" && !JsSpace(s[0])
    ensures TrimEnd(s) != ""
  {
    if JsSpace(s[|s| - 1]) { TrimEndKeepsAStart(s[..|s| - 1]); }
  }

  /** The share counts as empty exactly when `find` printed nothing but white space. */
  lemma {:induction false} TrimIsEmptyIffBlank(s: string)
    ensures Trim(s) == "" <==> forall c <- s :: JsSpace(c)
  {
    TrimStartIsEmptyIffBlank(s);
    if TrimStart(s) != "" { TrimEndKeepsAStart(TrimStart(s)); }
  }

  lemma {:induction false} TrimStartCuts(s: string) returns (cut: string)
    ensures s == cut + TrimStart(s) && forall c <- cut :: JsSpace(c)
  {
    cut := "";
    if s != "" && JsSpace(s[0]) {
      var more := TrimStartCuts(s[1..]);
      cut := [s[0]] + more;
      assert s == [s[0]] + s[1..];
    }
  }

  lemma {:induction false} TrimEndCuts(s: string) returns (cut: string)
    ensures s == TrimEnd(s) + cut && forall c <- cut :: JsSpace(c)
    ensures TrimEnd(s) != "" ==> TrimEnd(s)[0] == s[0] && !JsSpace(TrimEnd(s)[|TrimEnd(s)| - 1])
  {
    cut := "";
    if s != "" && JsSpace(s[|s| - 1]) {
      var more := TrimEndCuts(s[..|s| - 1]);
      cut := more + [s[|s| - 1]];
      assert s == s[..|s| - 1] + [s[|s| - 1]];
    }
  }

  /** Trimming takes white space off both ends and nothing else. */
  lemma {:induction false} TrimCutsBothEnds(s: string) returns (left: string, right: string)
    ensures s == left + Trim(s) + right && (forall c <- left + right :: JsSpace(c))
    ensures Trim(s) != "" ==> !JsSpace(Trim(s)[0]) && !JsSpace(Trim(s)[|Trim(s)| - 1])
  {
    left := TrimStartCuts(s);
    right := TrimEndCuts(TrimStart(s));
    TrimStartIsEmptyIffBlank(s);
    assert left + Trim(s) + right == left + (Trim(s) + right);
  }

  /** ECMAScript's white space and line terminators, by code point. */
  lemma {:induction false} SpaceByCodePoint(c: char)
    ensures var n := c as int;
            JsSpace(c) <==> || 9 <= n < 14 || n == 32 || n == 160 || n == 5760 || 8192 <= n < 8203
                            || n in [8232, 8233, 8239, 8287, 12288, 65279]
  {
  }

  datatype DeleteOutcome = NoConfig | HasData(entry: string) | Refused(exitCode: int) | StillThere | Deleted

  const NOTHING := ShareSettings(None, None, None, None, None, None)

  function DeleteInput(name: string): EditQueryInput { EditQueryInput(name, name, map[], NOTHING, Delete) }

  function DeleteCommand(name: string): string { EmcmdCommand(EncodePairs(NamePairs(DeleteInput(name)))) }

  function DeleteCommands(name: string): seq<string> {
    [CatCommand(name), FindCommand(name), DeleteCommand(name), CatCommand(name)]
  }

  /** How many of the commands an outcome took. */
  function Sent(outcome: DeleteOutcome): (n: nat)
    ensures 1 <= n <= 4
  {
    match outcome
    case NoConfig => 1
    case HasData(_) => 2
    case Refused(_) => 3
    case _ => 4
  }

  function DeleteFlow<S>(exec: (S, string) -> (S, Response), host: S, name: string): (S, DeleteOutcome) {
    var (read, cfg) := exec(host, CatCommand(name));
    if cfg.exitCode != 0 then (read, NoConfig)
    else
      var (searched, found) := exec(read, FindCommand(name));
      if Trim(found.stdout) != "" then (searched, HasData(Trim(found.stdout)))
      else Removed(exec, searched, name)
  }

  function Removed<S>(exec: (S, string) -> (S, Response), host: S, name: string): (S, DeleteOutcome) {
    var (submitted, answer) := exec(host, DeleteCommand(name));
    if answer.exitCode != 0 then (submitted, Refused(answer.exitCode))
    else
      var (checked, again) := exec(submitted, CatCommand(name));
      (checked, if again.exitCode == 0 then StillThere else Deleted)
  }

  lemma {:induction false} LogGrows(log: seq<string>, a: string, b: string, c: string, d: string)
    ensures var all := [a, b, c, d];
            && log + [a] == log + all[..1] && log + [a] + [b] == log + all[..2]
            && log + [a] + [b] + [c] == log + all[..3] && log + [a] + [b] + [c] + [d] == log + all[..4]
  {
  }

  method FirstEntry<S>(shell: Shell<S>, name: string) returns (entry: string)
    modifies shell
    ensures var (host, found) := shell.exec(old(shell.host), FindCommand(name));
            shell.host == host && entry == Trim(found.stdout)
    ensures shell.log == old(shell.log) + [FindCommand(name)]
  {
    var result := shell.Execute(FindCommand(name));
    entry := Trim(result.stdout);
  }

  method SubmitDelete<S>(shell: Shell<S>, name: string) returns (failure: Option<Outcome>)
    modifies shell
    ensures var (host, response) := shell.exec(old(shell.host), DeleteCommand(name));
            shell.host == host && failure == if response.exitCode != 0 then Some(Rejected(response.exitCode)) else None
    ensures shell.log == old(shell.log) + [DeleteCommand(name)]
  {
    DeleteQueryIsThreePairs(DeleteInput(name));
    var full := BuildEditQuery(DeleteInput(name));
    failure := SubmitToEmhttpd(shell, DeleteQueryOnly(full));
  }

  method SubmitAndVerify<S>(shell: Shell<S>, name: string) returns (outcome: DeleteOutcome)
    modifies shell
    ensures (shell.host, outcome) == Removed(shell.exec, old(shell.host), name)
    ensures if outcome.Refused? then shell.log == old(shell.log) + [DeleteCommand(name)]
            else !outcome.NoConfig? && !outcome.HasData?
                 && shell.log == old(shell.log) + [DeleteCommand(name)] + [CatCommand(name)]
  {
    var failure := SubmitDelete(shell, name);
    if failure.Some? {
      return Refused(failure.value.exitCode);
    }
    var again := ReadShareCfg(shell, name);
    outcome := if again != None then StillThere else Deleted;
  }

  /** The delete form is the third command: it is never sent before the cfg was read and the share seen empty. */
  method RunDelete<S>(shell: Shell<S>, name: string) returns (outcome: DeleteOutcome)
    modifies shell
    ensures (shell.host, outcome) == DeleteFlow(shell.exec, old(shell.host), name)
    ensures shell.log == old(shell.log) + DeleteCommands(name)[..Sent(outcome)]
  {
    LogGrows(shell.log, CatCommand(name), FindCommand(name), DeleteCommand(name), CatCommand(name));
    var cfg := ReadShareCfg(shell, name);
    if cfg == None {
      return NoConfig;
    }
    var entry := FirstEntry(shell, name);
    if entry != "" {
      return HasData(entry);
    }
    outcome := SubmitAndVerify(shell, name);
  }

  /**
   Against any host: the form is sent exactly when the cfg could be read and
   `find` printed only white space; deletion is reported exactly when the cfg is
   then gone.
   */
  lemma {:induction false} DeletedIsVerified<S>(exec: (S, string) -> (S, Response), host: S, name: string)
    ensures var (read, cfg) := exec(host, CatCommand(name));
            var (searched, found) := exec(read, FindCommand(name));
            var (submitted, answer) := exec(searched, DeleteCommand(name));
            var (checked, again) := exec(submitted, CatCommand(name));
            var outcome := DeleteFlow(exec, host, name).1;
            var submits := cfg.exitCode == 0 && forall c <- found.stdout :: JsSpace(c);
            && (outcome == NoConfig <==> cfg.exitCode != 0)
            && (outcome.HasData? <==> cfg.exitCode == 0 && !submits)
            && (outcome.HasData? ==> outcome.entry == Trim(found.stdout))
            && (Sent(outcome) >= 3 <==> submits)
            && (outcome.Refused? <==> submits && answer.exitCode != 0)
            && (outcome.Refused? ==> outcome.exitCode == answer.exitCode)
            && (outcome == Deleted <==> submits && answer.exitCode == 0 && again.exitCode != 0)
  {
    var (read, cfg) := exec(host, CatCommand(name));
    var (searched, found) := exec(read, FindCommand(name));
    TrimIsEmptyIffBlank(found.stdout);
  }

  lemma {:induction false} DeleteFormCarries(name: string)
    ensures var pairs := NamePairs(DeleteInput(name));
            && (forall pair <- pairs :: WordKey(pair.0))
            && FieldOf(pairs, "shareName") == Some(name) && FieldOf(pairs, "shareNameOrig") == Some(name)
            && FieldOf(pairs, "cmdEditShare") == Some("Delete")
  {
    var names, command: seq<Pair> := [("shareName", name), ("shareNameOrig", name)], [("cmdEditShare", "Delete")];
    assert names + command == NamePairs(DeleteInput(name));
    forall key | Control(key) ensures WordKey(key) { ControlsAreWords(key); }
    assert Control("shareName") && Control("shareNameOrig") && Control("cmdEditShare");
    NamesCarry(name, name);
    ControlCarries("cmdEditShare", "Delete");
    FieldOfConcatenation(names, command, "shareName");
    FieldOfConcatenation(names, command, "shareNameOrig");
    FieldOfConcatenation(names, command, "cmdEditShare");
  }

  /** On a host that does what the form says, the delete form removes this share's cfg and nothing else. */
  lemma {:induction false} DeleteRemovesOnlyTheCfg(host: Emhttpd, name: string)
    ensures Storing(host, DeleteCommand(name)) == (Emhttpd(host.files - {ShareCfgPath(name)}), Response(0, ""))
  {
    DeleteFormCarries(name);
    EmcmdReceivesTheForm(host, NamePairs(DeleteInput(name)));
  }

  // ---------------------------------------------------------------- shares that hold data

  /** No delete form is ever sent for a share that holds data when `find` looks. */
  ghost predicate ProtectsData<S(!new)>(exec: (S, string) -> (S, Response), holdsData: S -> bool, name: string) {
    forall host: S ::
      holdsData(exec(host, CatCommand(name)).0) ==> Sent(DeleteFlow(exec, host, name).1) < 3
  }

  /** Whenever a configured share holds data, `find` prints something. */
  ghost predicate FindReports<S(!new)>(exec: (S, string) -> (S, Response), holdsData: S -> bool, name: string) {
    forall host: S ::
      var (read, cfg) := exec(host, CatCommand(name));
      cfg.exitCode == 0 && holdsData(read) ==> exists c <- exec(read, FindCommand(name)).1.stdout :: !JsSpace(c)
  }

  /**
   Data is safe on exactly the hosts whose `find` reports it. The exit code of
   `find` is not looked at, so one that fails silently reads as an empty share.
   */
  lemma {:induction false} DataIsSafeIffFindReports<S(!new)>(
      exec: (S, string) -> (S, Response), holdsData: S -> bool, name: string)
    ensures ProtectsData(exec, holdsData, name) <==> FindReports(exec, holdsData, name)
  {
    forall host: S
      ensures (holdsData(exec(host, CatCommand(name)).0) ==> Sent(DeleteFlow(exec, host, name).1) < 3) <==>
              (exec(host, CatCommand(name)).1.exitCode == 0 && holdsData(exec(host, CatCommand(name)).0) ==>
                 exists c <- exec(exec(host, CatCommand(name)).0, FindCommand(name)).1.stdout :: !JsSpace(c))
    {
      DeletedIsVerified(exec, host, name);
    }
    if ProtectsData(exec, holdsData, name) {
      forall host: S
        ensures exec(host, CatCommand(name)).1.exitCode == 0 && holdsData(exec(host, CatCommand(name)).0) ==>
                  exists c <- exec(exec(host, CatCommand(name)).0, FindCommand(name)).1.stdout :: !JsSpace(c)
      {
        assert holdsData(exec(host, CatCommand(name)).0) ==> Sent(DeleteFlow(exec, host, name).1) < 3;
      }
    }
  }

  /** The storing host with one share's data: what `find` prints when it works, and whether it does. */
  datatype DataHost = DataHost(store: Emhttpd, firstEntry: string, findFails: bool)

  function Searching(name: string, host: DataHost, command: string): (DataHost, Response) {
    if command == FindCommand(name) then
      (host, if host.findFails then Response(1, "") else Response(0, host.firstEntry))
    else
      var (store, response) := Storing(host.store, command);
      (host.(store := store), response)
  }

  lemma {:induction false} FindIsNoOtherCommand(name: string)
    ensures CatCommand(name) != FindCommand(name) && DeleteCommand(name) != FindCommand(name)
  {
    assert CatCommand(name)[0] == 'c' && FindCommand(name)[0] == 'f';
    assert DeleteCommand(name)[0] == QuoteShell.QuoteForShell(EMCMD)[0] == '\'';
  }

  lemma {:induction false} SearchingAnswers(host: DataHost, name: string)
    requires ValidShareName(name) && ShareCfgPath(name) in host.store.files
    ensures var gone := host.(store := Emhttpd(host.store.files - {ShareCfgPath(name)}));
            && Searching(name, host, CatCommand(name)).0 == host && Searching(name, host, CatCommand(name)).1.exitCode == 0
            && Searching(name, host, FindCommand(name))
                 == (host, if host.findFails then Response(1, "") else Response(0, host.firstEntry))
            && Searching(name, host, DeleteCommand(name)) == (gone, Response(0, ""))
            && Searching(name, gone, CatCommand(name)) == (gone, Response(1, ""))
  {
    var gone := host.(store := Emhttpd(host.store.files - {ShareCfgPath(name)}));
    FindIsNoOtherCommand(name);
    CatReadsTheFile(host.store, name);
    DeleteRemovesOnlyTheCfg(host.store, name);
    CatReadsTheFile(gone.store, name);
  }

  lemma {:induction false} FlowFollowsAnswers<S>(exec: (S, string) -> (S, Response), host: S, gone: S, name: string)
    requires exec(host, CatCommand(name)).0 == host && exec(host, CatCommand(name)).1.exitCode == 0
    requires exec(host, FindCommand(name)).0 == host
    requires exec(host, DeleteCommand(name)) == (gone, Response(0, ""))
    requires exec(gone, CatCommand(name)) == (gone, Response(1, ""))
    ensures var entry := Trim(exec(host, FindCommand(name)).1.stdout);
            DeleteFlow(exec, host, name) == if entry != "" then (host, HasData(entry)) else (gone, Deleted)
  {
  }

  /** On that host a configured share full of data is deleted if and only if `find` fails. */
  lemma {:induction false} SilentFindLosesTheCfg(host: DataHost, name: string)
    requires ValidShareName(name) && ShareCfgPath(name) in host.store.files
    requires exists c <- host.firstEntry :: !JsSpace(c)
    ensures var (after, outcome) := DeleteFlow((h, command) => Searching(name, h, command), host, name);
            && (outcome == Deleted <==> host.findFails)
            && (ShareCfgPath(name) !in after.store.files <==> host.findFails)
  {
    var gone := host.(store := Emhttpd(host.store.files - {ShareCfgPath(name)}));
    SearchingAnswers(host, name);
    FlowFollowsAnswers((h, command) => Searching(name, h, command), host, gone, name);
    TrimIsEmptyIffBlank(host.firstEntry);
    TrimIsEmptyIffBlank("");
  }
}
