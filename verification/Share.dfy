/** User-share settings: the forms built from them and the fields they carry. */
module Share {
  import opened Wrappers
  import opened Strings
  import opened FormEncoding
  import opened ShareCfg

  datatype ShareSettings = ShareSettings(
    comment: Option<string>, allocator: Option<string>, useCache: Option<string>,
    cachePool: Option<string>, smbExport: Option<string>, smbSecurity: Option<string>)

  datatype Command = AddShare | Apply | Delete

  function Spelling(command: Command): string {
    match command
    case AddShare => "Add Share"
    case Apply => "Apply"
    case Delete => "Delete"
  }

  datatype EditQueryInput =
    EditQueryInput(name: string, nameOrig: string, current: Cfg, changes: ShareSettings, command: Command)

  const CREATE_DEFAULTS: Cfg := map[
    "shareAllocator" := "highwater", "shareUseCache" := "no", "shareCOW" := "auto",
    "shareCaseSensitive" := "auto", "shareExport" := "-", "shareSecurity" := "public"]

  const EDIT_FIELDS := [
    "shareComment", "shareAllocator", "shareFloor", "shareSplitLevel", "shareUseCache",
    "shareCachePool", "shareCachePool2", "shareCOW", "shareInclude", "shareExclude"]

  const SMB_FIELDS := ["shareExport", "shareSecurity", "shareCaseSensitive", "shareVolsizelimit"]

  const SETTING_KEYS := [
    "shareComment", "shareAllocator", "shareUseCache", "shareCachePool", "shareExport", "shareSecurity"]

  function Values(changes: ShareSettings): (r: seq<Option<string>>)
    ensures |r| == |SETTING_KEYS|
  {
    [changes.comment, changes.allocator, changes.useCache, changes.cachePool, changes.smbExport, changes.smbSecurity]
  }

  /** The settings that are given, under their cfg keys. */
  function Given(keys: seq<string>, values: seq<Option<string>>): seq<Entry>
    requires |keys| == |values|
  {
    if keys == [] then []
    else
      (match values[0]
       case Some(value) => [(keys[0], value)]
       case None => [])
      + Given(keys[1..], values[1..])
  }

  function Requested(changes: ShareSettings): Cfg { AsMap(Given(SETTING_KEYS, Values(changes))) }

  lemma {:induction false} GivenGrows(keys: seq<string>, values: seq<Option<string>>, i: nat)
    requires |keys| == |values| && i < |keys|
    ensures Given(keys[..i + 1], values[..i + 1])
         == Given(keys[..i], values[..i]) + (match values[i] case Some(value) => [(keys[i], value)] case None => [])
    decreases i
  {
    var k, v := keys[..i + 1], values[..i + 1];
    if i == 0 {
      assert k[1..] == [] && v[1..] == [];
    } else {
      GivenGrows(keys[1..], values[1..], i - 1);
      assert k[1..] == keys[1..][..i] && v[1..] == values[1..][..i];
      assert keys[..i][1..] == keys[1..][..i - 1] && values[..i][1..] == values[1..][..i - 1];
    }
  }

  lemma {:induction false} GivenKeysAre(keys: seq<string>, values: seq<Option<string>>)
    requires |keys| == |values|
    ensures forall key <- AsMap(Given(keys, values)) :: key in keys
  {
    if keys != [] {
      var rest := Given(keys[1..], values[1..]);
      GivenKeysAre(keys[1..], values[1..]);
      match values[0]
      case None => assert Given(keys, values) == rest;
      case Some(value) => AsMapFromFirst((keys[0], value), rest);
    }
  }

  lemma {:induction false} GivenHolds(keys: seq<string>, values: seq<Option<string>>, entry: Entry)
    requires |keys| == |values| && entry in Given(keys, values)
    requires forall i, j :: 0 <= i < j < |keys| ==> keys[i] != keys[j]
    ensures var cfg := AsMap(Given(keys, values)); entry.0 in cfg && cfg[entry.0] == entry.1
  {
    var rest := Given(keys[1..], values[1..]);
    match values[0]
    case None =>
      assert Given(keys, values) == rest;
      GivenHolds(keys[1..], values[1..], entry);
    case Some(value) =>
      AsMapFromFirst((keys[0], value), rest);
      GivenKeysAre(keys[1..], values[1..]);
      assert keys[0] !in keys[1..];
      if entry in rest { GivenHolds(keys[1..], values[1..], entry); }
  }

  /** A cfg says of one key what a setting says: its value, or nothing when it is not given. */
  ghost predicate Says(cfg: Cfg, key: string, setting: Option<string>) {
    match setting
    case Some(value) => key in cfg && cfg[key] == value
    case None => key !in cfg
  }

  /** Each setting under its own key, and no other key. */
  ghost predicate ByKey(fields: Cfg, changes: ShareSettings) {
    && Says(fields, "shareComment", changes.comment)
    && Says(fields, "shareAllocator", changes.allocator)
    && Says(fields, "shareUseCache", changes.useCache)
    && Says(fields, "shareCachePool", changes.cachePool)
    && Says(fields, "shareExport", changes.smbExport)
    && Says(fields, "shareSecurity", changes.smbSecurity)
    && forall key <- fields :: SettingKey(key)
  }

  predicate SettingKey(key: string) {
    key in ["shareComment", "shareAllocator", "shareUseCache", "shareCachePool", "shareExport", "shareSecurity"]
  }

  lemma {:induction false} GivenSays(keys: seq<string>, values: seq<Option<string>>, i: nat)
    requires |keys| == |values| && i < |keys|
    requires forall i, j :: 0 <= i < j < |keys| ==> keys[i] != keys[j]
    ensures Says(AsMap(Given(keys, values)), keys[i], values[i])
  {
    var rest := Given(keys[1..], values[1..]);
    GivenKeysAre(keys[1..], values[1..]);
    assert keys[0] !in keys[1..];
    if i > 0 { GivenSays(keys[1..], values[1..], i - 1); }
    match values[0]
    case None => assert Given(keys, values) == rest;
    case Some(value) => AsMapFromFirst((keys[0], value), rest);
  }

  lemma {:induction false} RequestedByKey(changes: ShareSettings)
    ensures ByKey(Requested(changes), changes)
  {
    SettingKeysDiffer();
    var values := Values(changes);
    forall i: nat | i < 6 ensures Says(Requested(changes), SETTING_KEYS[i], values[i]) {
      GivenSays(SETTING_KEYS, values, i);
    }
    GivenKeysAre(SETTING_KEYS, values);
    assert SETTING_KEYS[0] == "shareComment" && SETTING_KEYS[1] == "shareAllocator" && SETTING_KEYS[2] == "shareUseCache";
    assert SETTING_KEYS[3] == "shareCachePool" && SETTING_KEYS[4] == "shareExport" && SETTING_KEYS[5] == "shareSecurity";
  }

  method ChangedFields(changes: ShareSettings) returns (fields: Cfg)
    ensures fields == Requested(changes) && ByKey(fields, changes)
  {
    fields := map[];
    RequestedByKey(changes);
    var values := Values(changes);
    for i := 0 to |SETTING_KEYS|
      invariant fields == AsMap(Given(SETTING_KEYS[..i], values[..i]))
    {
      GivenGrows(SETTING_KEYS, values, i);
      var value := values[i];
      if value.Some? {
        AsMapConcatenation(Given(SETTING_KEYS[..i], values[..i]), [(SETTING_KEYS[i], value.value)]);
        AsMapOfOne((SETTING_KEYS[i], value.value));
        fields := fields[SETTING_KEYS[i] := value.value];
      } else {
        var before := Given(SETTING_KEYS[..i], values[..i]);
        assert before + [] == before;
      }
    }
    assert SETTING_KEYS[..|SETTING_KEYS|] == SETTING_KEYS && values[..|SETTING_KEYS|] == values;
  }

  // ---------------------------------------------------------------- the two forms

  function Merged(current: Cfg, changes: ShareSettings): Cfg { CREATE_DEFAULTS + current + Requested(changes) }

  function ValueIn(cfg: Cfg, field: string): string { if field in cfg then cfg[field] else "" }

  function FieldPairs(merged: Cfg, fields: seq<string>): (r: seq<Pair>)
    ensures |r| == |fields|
  {
    if fields == [] then []
    else FieldPairs(merged, fields[..|fields| - 1]) + [(fields[|fields| - 1], ValueIn(merged, fields[|fields| - 1]))]
  }

  function EditPairs(input: EditQueryInput): seq<Pair> {
    [("shareName", input.name), ("shareNameOrig", input.nameOrig)]
    + FieldPairs(Merged(input.current, input.changes), EDIT_FIELDS)
    + [("cmdEditShare", Spelling(input.command))]
  }

  predicate SmbNeeded(changes: ShareSettings) { changes.smbExport.Some? || changes.smbSecurity.Some? }

  function SmbPairs(name: string, current: Cfg, changes: ShareSettings): seq<Pair> {
    [("shareName", name)] + FieldPairs(Merged(current, changes), SMB_FIELDS) + [("changeShareSecurity", "Apply")]
  }

  /** Pushes one pair per form field. */
  method PushFields(start: seq<Pair>, merged: Cfg, fields: seq<string>) returns (pairs: seq<Pair>)
    ensures pairs == start + FieldPairs(merged, fields)
  {
    pairs := start;
    for i := 0 to |fields|
      invariant pairs == start + FieldPairs(merged, fields[..i])
    {
      pairs := pairs + [(fields[i], if fields[i] in merged then merged[fields[i]] else "")];
      assert fields[..i + 1][..i] == fields[..i];
    }
    assert fields[..|fields|] == fields;
  }

  method BuildEditQuery(input: EditQueryInput) returns (query: string)
    ensures query == EncodePairs(EditPairs(input))
  {
    var fields := ChangedFields(input.changes);
    var merged := CREATE_DEFAULTS + input.current + fields;
    var pairs := PushFields([("shareName", input.name), ("shareNameOrig", input.nameOrig)], merged, EDIT_FIELDS);
    pairs := pairs + [("cmdEditShare", Spelling(input.command))];
    query := EncodePairs(pairs);
  }

  method BuildSmbQuery(name: string, current: Cfg, changes: ShareSettings) returns (query: Option<string>)
    ensures query == if SmbNeeded(changes) then Some(EncodePairs(SmbPairs(name, current, changes))) else None
  {
    if changes.smbExport == None && changes.smbSecurity == None {
      return None;
    }
    var fields := ChangedFields(changes);
    var merged := CREATE_DEFAULTS + current + fields;
    var pairs := PushFields([("shareName", name)], merged, SMB_FIELDS);
    pairs := pairs + [("changeShareSecurity", "Apply")];
    query := Some(EncodePairs(pairs));
  }

  // ---------------------------------------------------------------- names

  /** The keys that steer emhttpd instead of being stored. */
  predicate Control(key: string) {
    key == "shareName" || key == "shareNameOrig" || key == "cmdEditShare" || key == "changeShareSecurity"
  }

  /** Length and sixth letter tell all the names apart. */
  function Tag(name: string): (nat, char) { (|name|, if |name| > 5 then name[5] else ' ') }

  lemma {:induction false} ControlTags(key: string)
    requires Control(key)
    ensures Tag(key) in [(9, 'N'), (13, 'N'), (12, 'i'), (19, 'e')]
  {
  }

  lemma {:induction false} FieldTags()
    ensures forall field <- EDIT_FIELDS ::
              Tag(field) in [(12, 'C'), (14, 'A'), (10, 'F'), (15, 'S'), (13, 'U'),
                             (14, 'C'), (15, 'C'), (8, 'C'), (12, 'I'), (12, 'E')]
    ensures forall field <- SMB_FIELDS :: Tag(field) in [(11, 'E'), (13, 'S'), (18, 'C'), (17, 'V')]
  {
  }

  lemma {:induction false} FieldsAreNoControls()
    ensures forall field <- EDIT_FIELDS :: !Control(field)
    ensures forall field <- SMB_FIELDS :: !Control(field)
  {
    FieldTags();
    forall field <- EDIT_FIELDS ensures !Control(field) { if Control(field) { ControlTags(field); } }
    forall field <- SMB_FIELDS ensures !Control(field) { if Control(field) { ControlTags(field); } }
  }

  lemma {:induction false} FieldsAreWords()
    ensures forall field <- EDIT_FIELDS :: WordKey(field)
    ensures forall field <- SMB_FIELDS :: WordKey(field)
  {
    EditFieldsAreWords();
  }

  lemma {:induction false} EditFieldsAreWords()
    ensures forall field <- EDIT_FIELDS :: WordKey(field)
  {
  }

  lemma {:induction false} ControlsAreWords(key: string)
    requires Control(key)
    ensures WordKey(key)
  {
  }

  lemma {:induction false} SettingKeysDiffer()
    ensures forall i, j :: 0 <= i < j < |SETTING_KEYS| ==> SETTING_KEYS[i] != SETTING_KEYS[j]
  {
    var tags := [(12, 'C'), (14, 'A'), (13, 'U'), (14, 'C'), (11, 'E'), (13, 'S')];
    assert forall i :: 0 <= i < 6 ==> Tag(SETTING_KEYS[i]) == tags[i];
    assert forall i, j :: 0 <= i < j < 6 ==> tags[i] != tags[j];
  }

  // ---------------------------------------------------------------- what the forms carry

  /** The value of the first pair with this key. */
  function FieldOf(pairs: seq<Pair>, key: string): Option<string> {
    if pairs == [] then None
    else if pairs[0].0 == key then Some(pairs[0].1)
    else FieldOf(pairs[1..], key)
  }

  /** The pairs that are settings. */
  function Settings(pairs: seq<Pair>): seq<Entry> {
    if pairs == [] then []
    else (if Control(pairs[0].0) then [] else [pairs[0]]) + Settings(pairs[1..])
  }

  function KeysOf(pairs: seq<Pair>): (r: seq<string>)
    ensures |r| == |pairs|
  {
    if pairs == [] then [] else KeysOf(pairs[..|pairs| - 1]) + [pairs[|pairs| - 1].0]
  }

  lemma {:induction false} KeysOfFieldPairs(merged: Cfg, fields: seq<string>)
    ensures KeysOf(FieldPairs(merged, fields)) == fields
  {
    if fields != [] {
      KeysOfFieldPairs(merged, fields[..|fields| - 1]);
      assert FieldPairs(merged, fields)[..|fields| - 1] == FieldPairs(merged, fields[..|fields| - 1]);
    }
  }

  lemma {:induction false} FieldOfConcatenation(a: seq<Pair>, b: seq<Pair>, key: string)
    ensures FieldOf(a + b, key) == if FieldOf(a, key).Some? then FieldOf(a, key) else FieldOf(b, key)
  {
    if a == [] {
      assert a + b == b;
    } else {
      assert (a + b)[1..] == a[1..] + b;
      FieldOfConcatenation(a[1..], b, key);
    }
  }

  lemma {:induction false} SettingsConcatenation(a: seq<Pair>, b: seq<Pair>)
    ensures Settings(a + b) == Settings(a) + Settings(b)
  {
    if a == [] {
      assert a + b == b;
    } else {
      assert (a + b)[1..] == a[1..] + b;
      SettingsConcatenation(a[1..], b);
    }
  }

  lemma {:induction false} FieldPairsAre(merged: Cfg, fields: seq<string>)
    requires forall field <- fields :: !Control(field)
    ensures Settings(FieldPairs(merged, fields)) == FieldPairs(merged, fields)
    ensures forall key | Control(key) :: FieldOf(FieldPairs(merged, fields), key) == None
  {
    if fields != [] {
      var last, before := fields[|fields| - 1], fields[..|fields| - 1];
      assert last in fields;
      forall field <- before ensures !Control(field) { assert field in fields; }
      FieldPairsAre(merged, before);
      var pair: seq<Pair> := [(last, ValueIn(merged, last))];
      SettingsConcatenation(FieldPairs(merged, before), pair);
      assert pair[1..] == [] && Settings(pair) == pair;
      forall key | Control(key) ensures FieldOf(FieldPairs(merged, fields), key) == None {
        FieldOfConcatenation(FieldPairs(merged, before), pair, key);
      }
    }
  }

  lemma {:induction false} InLastOrBefore(fields: seq<string>, key: string)
    requires fields != []
    ensures key in fields <==> key == fields[|fields| - 1] || key in fields[..|fields| - 1]
  {
    if key in fields {
      var i :| 0 <= i < |fields| && fields[i] == key;
      assert i < |fields| - 1 ==> fields[..|fields| - 1][i] == key;
    }
  }

  /** The fields of a form as a cfg: each listed field with its merged value, blank when there is none. */
  lemma {:induction false} FieldPairsHold(merged: Cfg, fields: seq<string>, key: string)
    ensures var cfg := AsMap(FieldPairs(merged, fields));
            (key in cfg <==> key in fields) && (key in fields ==> cfg[key] == ValueIn(merged, key))
  {
    if fields != [] {
      var before := fields[..|fields| - 1];
      FieldPairsHold(merged, before, key);
      InLastOrBefore(fields, key);
      assert FieldPairs(merged, fields)[..|fields| - 1] == FieldPairs(merged, before);
    }
  }

  lemma {:induction false} FormCarries(start: seq<Pair>, merged: Cfg, fields: seq<string>, end: seq<Pair>)
    requires (forall field <- fields :: !Control(field)) && Settings(start) == [] && Settings(end) == []
    ensures Settings(start + FieldPairs(merged, fields) + end) == FieldPairs(merged, fields)
  {
    var middle := FieldPairs(merged, fields);
    FieldPairsAre(merged, fields);
    SettingsConcatenation(start + middle, end);
    SettingsConcatenation(start, middle);
    assert [] + middle + [] == middle;
  }

  lemma {:induction false} ControlAroundFields(start: seq<Pair>, merged: Cfg, fields: seq<string>, end: seq<Pair>, key: string)
    requires (forall field <- fields :: !Control(field)) && Control(key)
    ensures FieldOf(start + FieldPairs(merged, fields) + end, key)
         == if FieldOf(start, key).Some? then FieldOf(start, key) else FieldOf(end, key)
  {
    FieldPairsAre(merged, fields);
    FieldOfConcatenation(start + FieldPairs(merged, fields), end, key);
    FieldOfConcatenation(start, FieldPairs(merged, fields), key);
  }

  lemma {:induction false} ControlCarries(key: string, value: string)
    requires Control(key)
    ensures FieldOf([(key, value)], key) == Some(value) && Settings([(key, value)]) == []
    ensures forall other :: other != key ==> FieldOf([(key, value)], other) == None
  {
    var one: seq<Pair> := [(key, value)];
    assert one[1..] == [];
  }

  lemma {:induction false} ControlsDiffer()
    ensures "shareName" != "shareNameOrig" && "shareName" != "cmdEditShare" && "shareNameOrig" != "cmdEditShare"
    ensures "shareName" != "changeShareSecurity" && "cmdEditShare" != "changeShareSecurity"
  {
  }

  lemma {:induction false} NamesCarry(name: string, nameOrig: string)
    ensures var names := [("shareName", name), ("shareNameOrig", nameOrig)];
            && FieldOf(names, "shareName") == Some(name) && FieldOf(names, "shareNameOrig") == Some(nameOrig)
            && FieldOf(names, "cmdEditShare") == None && Settings(names) == []
  {
    var first, second: seq<Pair> := [("shareName", name)], [("shareNameOrig", nameOrig)];
    ControlCarries("shareName", name);
    ControlCarries("shareNameOrig", nameOrig);
    ControlsDiffer();
    FieldOfConcatenation(first, second, "shareName");
    FieldOfConcatenation(first, second, "shareNameOrig");
    FieldOfConcatenation(first, second, "cmdEditShare");
    SettingsConcatenation(first, second);
    assert first + second == [("shareName", name), ("shareNameOrig", nameOrig)];
  }

  /** Read at the other end, the edit form carries the names, the command, and exactly the form's fields. */
  lemma {:induction false} EditFormCarries(input: EditQueryInput)
    ensures var pairs := EditPairs(input);
            && FieldOf(pairs, "shareName") == Some(input.name)
            && FieldOf(pairs, "shareNameOrig") == Some(input.nameOrig)
            && FieldOf(pairs, "cmdEditShare")
               == Some(if input.command.AddShare? then "Add Share" else if input.command.Apply? then "Apply" else "Delete")
            && Settings(pairs) == FieldPairs(Merged(input.current, input.changes), EDIT_FIELDS)
            && KeysOf(Settings(pairs)) == ["shareComment", "shareAllocator", "shareFloor", "shareSplitLevel", "shareUseCache",
                                           "shareCachePool", "shareCachePool2", "shareCOW", "shareInclude", "shareExclude"]
  {
    var names := [("shareName", input.name), ("shareNameOrig", input.nameOrig)];
    var command := [("cmdEditShare", Spelling(input.command))];
    NamesCarry(input.name, input.nameOrig);
    ControlCarries("cmdEditShare", Spelling(input.command));
    FieldsAreNoControls();
    var merged := Merged(input.current, input.changes);
    FormCarries(names, merged, EDIT_FIELDS, command);
    KeysOfFieldPairs(merged, EDIT_FIELDS);
    ControlAroundFields(names, merged, EDIT_FIELDS, command, "shareName");
    ControlAroundFields(names, merged, EDIT_FIELDS, command, "shareNameOrig");
    ControlAroundFields(names, merged, EDIT_FIELDS, command, "cmdEditShare");
  }

  /** The SMB form carries the name and exactly its fields, and is not an edit form. */
  lemma {:induction false} SmbFormCarries(name: string, current: Cfg, changes: ShareSettings)
    ensures var pairs := SmbPairs(name, current, changes);
            && FieldOf(pairs, "shareName") == Some(name)
            && FieldOf(pairs, "cmdEditShare") == None
            && FieldOf(pairs, "changeShareSecurity") == Some("Apply")
            && Settings(pairs) == FieldPairs(Merged(current, changes), SMB_FIELDS)
            && KeysOf(Settings(pairs)) == ["shareExport", "shareSecurity", "shareCaseSensitive", "shareVolsizelimit"]
  {
    ControlCarries("shareName", name);
    ControlCarries("changeShareSecurity", "Apply");
    ControlsDiffer();
    FieldsAreNoControls();
    var start, end := [("shareName", name)], [("changeShareSecurity", "Apply")];
    var merged := Merged(current, changes);
    FormCarries(start, merged, SMB_FIELDS, end);
    KeysOfFieldPairs(merged, SMB_FIELDS);
    ControlAroundFields(start, merged, SMB_FIELDS, end, "shareName");
    ControlAroundFields(start, merged, SMB_FIELDS, end, "cmdEditShare");
    ControlAroundFields(start, merged, SMB_FIELDS, end, "changeShareSecurity");
  }

  // ---------------------------------------------------------------- round trips

  lemma {:induction false} WordsArePlain(key: string)
    requires WordKey(key)
    ensures PlainKey(key)
  {
    assert !WordChar('&') && !WordChar('=');
  }

  lemma {:induction false} FieldPairsArePlain(merged: Cfg, fields: seq<string>)
    requires forall field <- fields :: WordKey(field)
    ensures forall pair <- FieldPairs(merged, fields) :: PlainKey(pair.0)
  {
    if fields != [] {
      var last, before := fields[|fields| - 1], fields[..|fields| - 1];
      assert last in fields;
      WordsArePlain(last);
      forall field <- before ensures WordKey(field) { assert field in fields; }
      FieldPairsArePlain(merged, before);
    }
  }

  lemma {:induction false} FormsArePlain(input: EditQueryInput)
    ensures forall pair <- EditPairs(input) :: PlainKey(pair.0)
    ensures forall pair <- SmbPairs(input.name, input.current, input.changes) :: PlainKey(pair.0)
  {
    FieldsAreWords();
    FieldPairsArePlain(Merged(input.current, input.changes), EDIT_FIELDS);
    FieldPairsArePlain(Merged(input.current, input.changes), SMB_FIELDS);
    forall key | Control(key) ensures PlainKey(key) { ControlsAreWords(key); WordsArePlain(key); }
    assert Control("shareName") && Control("shareNameOrig") && Control("cmdEditShare") && Control("changeShareSecurity");
  }

  /** Both forms survive the wire: decoded, they are the pairs they were built from. */
  lemma {:induction false} FormsRoundTrip(input: EditQueryInput)
    ensures ParseForm(EncodePairs(EditPairs(input))) == Some(EditPairs(input))
    ensures var smb := SmbPairs(input.name, input.current, input.changes); ParseForm(EncodePairs(smb)) == Some(smb)
  {
    FormsArePlain(input);
    FormRoundTrip(EditPairs(input));
    FormRoundTrip(SmbPairs(input.name, input.current, input.changes));
  }
}
