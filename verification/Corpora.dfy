/** The corpus index, read once by the recorder and once, independently, by the publication validator. */
module Corpora {
  import opened Results
  import opened Gates
  import opened Markers
  import opened Json
  import opened Text

  const INDEX_SCHEMA := "upgradeguard.dev/corpus-index/v1"
  const INDEX_FIELDS := {"schema_version", "reference_environment_sha256", "corpora"}
  const ENTRY_FIELDS := {"root", "lock", "lock_sha256", "materializer_sha256", "inventory_sha256",
                         "reference_environment_sha256"}

  // ---------------------------------------------------------------- POSIX paths

  /** The parts of a pure POSIX path: empty and `.` components vanish. */
  function PosixParts(s: string): seq<string> {
    Significant(Split(s, '/'))
  }

  function Significant(parts: seq<string>): seq<string> {
    if parts == [] then []
    else (if parts[0] == "" || parts[0] == "." then [] else [parts[0]]) + Significant(parts[1..])
  }

  predicate SafePosixPath(s: string) {
    !Absolute(s) && PosixParts(s) != [] && ".." !in PosixParts(s)
  }

  predicate LiesBelow(lock: string, root: string) {
    PosixParts(root) <= PosixParts(lock)
  }

  // ---------------------------------------------------------------- the recorder

  function ExpectedKinds(mode: Mode): seq<string> {
    if mode.FullMode? then ["core", "mobilenet", "plugin"] else ["core", "plugin"]
  }

  /** One corpus entry as the recorder accepts it. `contents` stands for re-hashing the corpus on disk. */
  function RecordedEntry(kind: string, raw: Json, reference: string, contents: bool): Option<CorpusIdentity> {
    if !raw.JObject? || raw.fields.Keys != ENTRY_FIELDS then None
    else
      var f := raw.fields;
      if exists k :: k in f.Keys && !(f[k].JString? && f[k].text != "") then None
      else
        var identity := CorpusIdentity(kind, f["root"].text, f["lock"].text, f["lock_sha256"].text,
                                       f["materializer_sha256"].text, f["inventory_sha256"].text,
                                       f["reference_environment_sha256"].text);
        if !SafePosixPath(identity.root) || !SafePosixPath(identity.lock) then None
        else if !LiesBelow(identity.lock, identity.root) then None
        else if !IsSha256(identity.lockSha256) || !IsSha256(identity.materializerSha256)
                || !IsSha256(identity.inventorySha256) || !IsSha256(identity.referenceSha256) then None
        else if identity.referenceSha256 != reference then None
        else if !contents then None
        else Some(identity)
  }

  function RecordedEntries(kinds: seq<string>, corpora: map<string, Json>, reference: string,
                           contents: (string, Json) -> bool): Option<seq<CorpusIdentity>>
  {
    if kinds == [] then Some([])
    else
      var raw := Get(corpora, kinds[0]);
      var first := RecordedEntry(kinds[0], raw, reference, contents(kinds[0], raw));
      var rest := RecordedEntries(kinds[1..], corpora, reference, contents);
      if first.None? || rest.None? then None else Some([first.value] + rest.value)
  }

  /** The identities the recorder binds, in the sort order of their kinds. */
  function CorpusIdentities(index: Option<Json>, mode: Mode, verifyContents: bool,
                            contents: (string, Json) -> bool): Option<seq<CorpusIdentity>>
  {
    if index.None? || !index.value.JObject? then None
    else
      var value := index.value.fields;
      var reference, corpora := Get(value, "reference_environment_sha256"), Get(value, "corpora");
      if Get(value, "schema_version") != JString(INDEX_SCHEMA) || value.Keys != INDEX_FIELDS then None
      else if !reference.JString? || !IsSha256(reference.text) then None
      else if !corpora.JObject? || corpora.fields.Keys != (set k | k in ExpectedKinds(mode)) then None
      else RecordedEntries(ExpectedKinds(mode), corpora.fields, reference.text,
                           (kind, raw) => !verifyContents || contents(kind, raw))
  }

  // ---------------------------------------------------------------- the validator

  /** One corpus entry as the validator accepts it. `str` is the conversion of any JSON value to text. */
  function RetainedEntry(kind: string, raw: Json, reference: Json, str: Json -> string): Option<CorpusIdentity> {
    if !raw.JObject? || raw.fields.Keys != ENTRY_FIELDS then None
    else
      var f := raw.fields;
      var root, lock := str(f["root"]), str(f["lock"]);
      if !SafePosixPath(root) || !SafePosixPath(lock) || !LiesBelow(lock, root) then None
      else if exists k :: k in ["lock_sha256", "materializer_sha256", "inventory_sha256",
                                "reference_environment_sha256"]
                          && !(f[k].JString? && IsSha256(f[k].text)) then None
      else if f["reference_environment_sha256"] != reference then None
      else Some(CorpusIdentity(kind, root, lock, str(f["lock_sha256"]), str(f["materializer_sha256"]),
                               str(f["inventory_sha256"]), str(f["reference_environment_sha256"])))
  }

  function RetainedEntries(kinds: seq<string>, corpora: map<string, Json>, reference: Json,
                           str: Json -> string): Option<seq<CorpusIdentity>>
  {
    if kinds == [] then Some([])
    else
      var first := RetainedEntry(kinds[0], Get(corpora, kinds[0]), reference, str);
      var rest := RetainedEntries(kinds[1..], corpora, reference, str);
      if first.None? || rest.None? then None else Some([first.value] + rest.value)
  }

  function RetainedIdentities(index: Option<Json>, str: Json -> string): Option<seq<CorpusIdentity>> {
    if index.None? || !index.value.JObject? then None
    else
      var value := index.value.fields;
      var reference, corpora := Get(value, "reference_environment_sha256"), Get(value, "corpora");
      if value.Keys != INDEX_FIELDS || Get(value, "schema_version") != JString(INDEX_SCHEMA) then None
      else if !reference.JString? || !IsSha256(reference.text) then None
      else if !corpora.JObject? || corpora.fields.Keys != {"core", "plugin", "mobilenet"} then None
      else RetainedEntries(["core", "mobilenet", "plugin"], corpora.fields, reference, str)
  }

  // ---------------------------------------------------------------- agreement

  ghost predicate ConvertsText(str: Json -> string) {
    forall s :: str(JString(s)) == s
  }

  lemma EntryAgrees(kind: string, raw: Json, reference: string, contents: bool, str: Json -> string)
    requires ConvertsText(str) && RecordedEntry(kind, raw, reference, contents).Some?
    ensures RetainedEntry(kind, raw, JString(reference), str) == RecordedEntry(kind, raw, reference, contents)
  {
    hide SafePosixPath, LiesBelow, IsSha256;
    var f := raw.fields;
    forall k | k in f.Keys ensures str(f[k]) == f[k].text && f[k] == JString(f[k].text) {
    }
  }

  lemma {:induction false} EntriesAgree(kinds: seq<string>, corpora: map<string, Json>, reference: string,
                                        contents: (string, Json) -> bool, str: Json -> string)
    requires ConvertsText(str) && RecordedEntries(kinds, corpora, reference, contents).Some?
    ensures RetainedEntries(kinds, corpora, JString(reference), str)
            == RecordedEntries(kinds, corpora, reference, contents)
  {
    hide RecordedEntry, RetainedEntry;
    if kinds != [] {
      EntryAgrees(kinds[0], Get(corpora, kinds[0]), reference, contents(kinds[0], Get(corpora, kinds[0])), str);
      EntriesAgree(kinds[1..], corpora, reference, contents, str);
    }
  }

  /** Whatever identities the recorder binds in full mode the validator reads back from the same index. */
  lemma IdentitiesAgree(index: Option<Json>, verifyContents: bool, contents: (string, Json) -> bool,
                        str: Json -> string)
    requires ConvertsText(str) && CorpusIdentities(index, FullMode, verifyContents, contents).Some?
    ensures RetainedIdentities(index, str) == CorpusIdentities(index, FullMode, verifyContents, contents)
  {
    hide RecordedEntries, RetainedEntries;
    var value := index.value.fields;
    assert (set k | k in ["core", "mobilenet", "plugin"]) == {"core", "plugin", "mobilenet"};
    EntriesAgree(["core", "mobilenet", "plugin"], Get(value, "corpora").fields,
                 Get(value, "reference_environment_sha256").text,
                 (kind, raw) => !verifyContents || contents(kind, raw), str);
  }
}
