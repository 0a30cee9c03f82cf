/** What an accepted corpus index says, told of its JSON alone. */
module CorporaMeaning {
  import opened Results
  import opened Gates
  import opened Markers
  import opened Json
  import opened Text
  import opened Corpora

  // ---------------------------------------------------------------- paths

  /** The pieces of a path that count: neither empty nor a dot. */
  ghost predicate Counts(piece: string) {
    piece != "" && piece != "."
  }

  /** The pieces a text is joined from. */
  ghost predicate ArePieces(s: string, pieces: seq<string>) {
    && pieces != [] && Join(pieces, '/') == s
    && forall piece :: piece in pieces ==> '/' !in piece
  }

  /** The parts keep the pieces that count, in order: of each piece alone, and of pieces put together. */
  lemma {:induction false} SignificantAdds(a: seq<string>, b: seq<string>)
    ensures Significant(a + b) == Significant(a) + Significant(b)
  {
    if a == [] {
      assert a + b == b;
    } else {
      var head := if Counts(a[0]) then [a[0]] else [];
      SignificantHead(a);
      SignificantHead(a + b);
      SignificantAdds(a[1..], b);
      hide Significant;
      assert (a + b)[1..] == a[1..] + b && (a + b)[0] == a[0];
      assert head + (Significant(a[1..]) + Significant(b)) == head + Significant(a[1..]) + Significant(b);
    }
  }

  lemma SignificantHead(pieces: seq<string>)
    requires pieces != []
    ensures Significant(pieces) == (if Counts(pieces[0]) then [pieces[0]] else []) + Significant(pieces[1..])
  {
  }

  lemma SignificantPiece(piece: string)
    ensures Significant([piece]) == if Counts(piece) then [piece] else []
  {
    assert [piece][1..] == [];
  }

  lemma {:induction false} SignificantIn(pieces: seq<string>, piece: string)
    ensures piece in Significant(pieces) <==> piece in pieces && Counts(piece)
  {
    if pieces != [] {
      SignificantIn(pieces[1..], piece);
      assert pieces == [pieces[0]] + pieces[1..];
    }
  }

  lemma PiecesAreSplit(s: string, pieces: seq<string>)
    ensures ArePieces(s, pieces) <==> pieces == Split(s, '/')
  {
    SplitPartsClean(s, '/');
    JoinSplit(s, '/');
    if ArePieces(s, pieces) { SplitJoin(pieces, '/'); }
  }

  /** A safe path does not start at the root, has a piece that counts, and never goes up. */
  lemma SafeMeans(s: string, pieces: seq<string>)
    requires ArePieces(s, pieces)
    ensures SafePosixPath(s)
            <==> (s == "" || s[0] != '/') && (exists piece :: piece in pieces && Counts(piece)) && ".." !in pieces
  {
    PiecesAreSplit(s, pieces);
    forall piece ensures piece in Significant(pieces) <==> piece in pieces && Counts(piece) {
      SignificantIn(pieces, piece);
    }
    if Significant(pieces) != [] { assert Significant(pieces)[0] in Significant(pieces); }
  }

  /** One path lies at or below another when its counting pieces begin with the other's. */
  lemma BelowMeans(lock: string, root: string, a: seq<string>, b: seq<string>)
    requires ArePieces(lock, a) && ArePieces(root, b)
    ensures LiesBelow(lock, root) <==> Significant(b) <= Significant(a)
  {
    PiecesAreSplit(lock, a);
    PiecesAreSplit(root, b);
  }

  // ---------------------------------------------------------------- entries

  /** The entry of a corpus says this identity: its six fields and no others, paths as text, the lock below the root,
      digests as they are, and the reference environment of the index. */
  ghost predicate EntrySays(kind: string, raw: Json, reference: string, str: Json -> string, identity: CorpusIdentity) {
    && raw.JObject?
    && raw.fields.Keys == {"root", "lock", "lock_sha256", "materializer_sha256", "inventory_sha256",
                           "reference_environment_sha256"}
    && identity.kind == kind
    && identity.root == str(raw.fields["root"]) && identity.lock == str(raw.fields["lock"])
    && SafePosixPath(identity.root) && SafePosixPath(identity.lock) && LiesBelow(identity.lock, identity.root)
    && raw.fields["lock_sha256"] == JString(identity.lockSha256) && IsSha256(identity.lockSha256)
    && raw.fields["materializer_sha256"] == JString(identity.materializerSha256)
    && IsSha256(identity.materializerSha256)
    && raw.fields["inventory_sha256"] == JString(identity.inventorySha256) && IsSha256(identity.inventorySha256)
    && raw.fields["reference_environment_sha256"] == JString(identity.referenceSha256)
    && identity.referenceSha256 == reference
  }

  /** The index has its three fields and no others, names its schema and a reference environment, and holds exactly
      the entries of the kinds. */
  ghost predicate IndexSays(index: Option<Json>, kinds: set<string>, reference: string, corpora: map<string, Json>) {
    && index.Some? && index.value.JObject?
    && index.value.fields.Keys == {"schema_version", "reference_environment_sha256", "corpora"}
    && index.value.fields["schema_version"] == JString("upgradeguard.dev/corpus-index/v1")
    && index.value.fields["reference_environment_sha256"] == JString(reference) && IsSha256(reference)
    && index.value.fields["corpora"] == JObject(corpora) && corpora.Keys == kinds
  }

  ghost predicate EntriesSay(kinds: seq<string>, corpora: map<string, Json>, reference: string, str: Json -> string,
                             identities: seq<CorpusIdentity>) {
    && |identities| == |kinds|
    && forall i :: 0 <= i < |kinds| ==>
         kinds[i] in corpora && EntrySays(kinds[i], corpora[kinds[i]], reference, str, identities[i])
  }

  // ---------------------------------------------------------------- the validator

  lemma RetainedEntryMeans(kind: string, raw: Json, reference: string, str: Json -> string, identity: CorpusIdentity)
    requires ConvertsText(str) && IsSha256(reference)
    ensures RetainedEntry(kind, raw, JString(reference), str) == Some(identity)
            <==> EntrySays(kind, raw, reference, str, identity)
  {
    hide SafePosixPath, LiesBelow, IsSha256;
    if raw.JObject? && raw.fields.Keys == ENTRY_FIELDS {
      var f := raw.fields;
      forall k | k in f.Keys && f[k].JString? ensures str(f[k]) == f[k].text && f[k] == JString(f[k].text) {
      }
    }
  }

  lemma {:induction false} RetainedEntriesMean(kinds: seq<string>, corpora: map<string, Json>, reference: string,
                                               str: Json -> string, identities: seq<CorpusIdentity>)
    requires ConvertsText(str) && IsSha256(reference) && forall k :: k in kinds ==> k in corpora
    ensures RetainedEntries(kinds, corpora, JString(reference), str) == Some(identities)
            <==> EntriesSay(kinds, corpora, reference, str, identities)
  {
    hide RetainedEntry, EntrySays, ConvertsText, IsSha256;
    if kinds != [] {
      forall identity
        ensures RetainedEntry(kinds[0], Get(corpora, kinds[0]), JString(reference), str) == Some(identity)
                <==> EntrySays(kinds[0], corpora[kinds[0]], reference, str, identity)
      {
        RetainedEntryMeans(kinds[0], Get(corpora, kinds[0]), reference, str, identity);
      }
      if identities != [] {
        RetainedEntriesMean(kinds[1..], corpora, reference, str, identities[1..]);
        SayMore(kinds, corpora, reference, str, identities);
        FirstAndRest(RetainedEntry(kinds[0], Get(corpora, kinds[0]), JString(reference), str),
                     RetainedEntries(kinds[1..], corpora, JString(reference), str), identities);
      }
    }
  }

  lemma FirstAndRest<T>(first: Option<T>, rest: Option<seq<T>>, all: seq<T>)
    requires all != []
    ensures (first.Some? && rest.Some? && [first.value] + rest.value == all)
            <==> first == Some(all[0]) && rest == Some(all[1..])
  {
    if first.Some? && rest.Some? && [first.value] + rest.value == all {
      assert all[1..] == rest.value;
    }
  }

  lemma SayMore(kinds: seq<string>, corpora: map<string, Json>, reference: string, str: Json -> string,
                identities: seq<CorpusIdentity>)
    requires kinds != [] && identities != [] && kinds[0] in corpora
    ensures EntriesSay(kinds, corpora, reference, str, identities)
            <==> EntrySays(kinds[0], corpora[kinds[0]], reference, str, identities[0])
                 && EntriesSay(kinds[1..], corpora, reference, str, identities[1..])
  {
    hide EntrySays;
    if EntriesSay(kinds[1..], corpora, reference, str, identities[1..]) {
      forall i | 1 <= i < |kinds|
        ensures kinds[i] == kinds[1..][i - 1] && identities[i] == identities[1..][i - 1]
      {
      }
    }
    if EntriesSay(kinds, corpora, reference, str, identities) {
      forall i | 0 <= i < |kinds[1..]|
        ensures kinds[1..][i] == kinds[i + 1] && identities[1..][i] == identities[i + 1]
      {
      }
    }
  }

  /** The validator reads identities out of an index exactly when index and entries say them. */
  lemma RetainedMeans(index: Option<Json>, str: Json -> string, identities: seq<CorpusIdentity>)
    requires ConvertsText(str)
    ensures RetainedIdentities(index, str) == Some(identities)
            <==> exists reference, corpora ::
                   IndexSays(index, {"core", "plugin", "mobilenet"}, reference, corpora)
                   && EntriesSay(["core", "mobilenet", "plugin"], corpora, reference, str, identities)
  {
    hide RetainedEntries, EntriesSay, IsSha256, ConvertsText;
    var kinds := ["core", "mobilenet", "plugin"];
    assert forall k :: k in kinds <==> k in {"core", "plugin", "mobilenet"};
    forall reference, corpora | IndexSays(index, {"core", "plugin", "mobilenet"}, reference, corpora)
      ensures RetainedIdentities(index, str) == Some(identities)
              <==> EntriesSay(kinds, corpora, reference, str, identities)
    {
      RetainedEntriesMean(kinds, corpora, reference, str, identities);
    }
    if RetainedIdentities(index, str) == Some(identities) {
      var value := index.value.fields;
      var reference, corpora := value["reference_environment_sha256"].text, value["corpora"].fields;
      assert IndexSays(index, {"core", "plugin", "mobilenet"}, reference, corpora);
    }
  }

  // ---------------------------------------------------------------- the recorder

  /** What the recorder asks besides: text everywhere, none of it empty, and contents that hash as recorded. */
  ghost predicate EntryStands(kind: string, raw: Json, contents: bool) {
    raw.JObject? && (forall k :: k in raw.fields ==> raw.fields[k].JString? && raw.fields[k].text != "") && contents
  }

  function TextOf(value: Json): string {
    if value.JString? then value.text else ""
  }

  lemma RecordedEntryMeans(kind: string, raw: Json, reference: string, contents: bool, identity: CorpusIdentity)
    requires IsSha256(reference)
    ensures RecordedEntry(kind, raw, reference, contents) == Some(identity)
            <==> EntryStands(kind, raw, contents) && EntrySays(kind, raw, reference, TextOf, identity)
  {
    hide SafePosixPath, LiesBelow, IsSha256;
    if raw.JObject? && raw.fields.Keys == ENTRY_FIELDS {
      var f := raw.fields;
      forall k | k in f.Keys && f[k].JString? ensures TextOf(f[k]) == f[k].text && f[k] == JString(f[k].text) {
      }
    }
  }

  ghost predicate EntriesStand(kinds: seq<string>, corpora: map<string, Json>, contents: (string, Json) -> bool) {
    forall k :: k in kinds ==> k in corpora && EntryStands(k, corpora[k], contents(k, corpora[k]))
  }

  lemma {:induction false} RecordedEntriesMean(kinds: seq<string>, corpora: map<string, Json>, reference: string,
                                               contents: (string, Json) -> bool, identities: seq<CorpusIdentity>)
    requires IsSha256(reference) && forall k :: k in kinds ==> k in corpora
    ensures RecordedEntries(kinds, corpora, reference, contents) == Some(identities)
            <==> EntriesStand(kinds, corpora, contents) && EntriesSay(kinds, corpora, reference, TextOf, identities)
  {
    hide RecordedEntry, EntrySays, EntryStands, IsSha256;
    if kinds != [] {
      forall identity
        ensures RecordedEntry(kinds[0], Get(corpora, kinds[0]), reference, contents(kinds[0], Get(corpora, kinds[0])))
                == Some(identity)
                <==> EntryStands(kinds[0], corpora[kinds[0]], contents(kinds[0], corpora[kinds[0]]))
                     && EntrySays(kinds[0], corpora[kinds[0]], reference, TextOf, identity)
      {
        RecordedEntryMeans(kinds[0], Get(corpora, kinds[0]), reference, contents(kinds[0], Get(corpora, kinds[0])),
                           identity);
      }
      assert kinds == [kinds[0]] + kinds[1..];
      if identities != [] {
        RecordedEntriesMean(kinds[1..], corpora, reference, contents, identities[1..]);
        SayMore(kinds, corpora, reference, TextOf, identities);
        FirstAndRest(RecordedEntry(kinds[0], Get(corpora, kinds[0]), reference,
                                   contents(kinds[0], Get(corpora, kinds[0]))),
                     RecordedEntries(kinds[1..], corpora, reference, contents), identities);
      }
    }
  }

  ghost function KindsOf(mode: Mode): set<string> {
    if mode.FullMode? then {"core", "plugin", "mobilenet"} else {"core", "plugin"}
  }

  /** The recorder binds identities exactly when, moreover, every entry stands; contents are read again only on
      request. */
  lemma RecordedMeans(index: Option<Json>, mode: Mode, verifyContents: bool, contents: (string, Json) -> bool,
                      identities: seq<CorpusIdentity>)
    ensures CorpusIdentities(index, mode, verifyContents, contents) == Some(identities)
            <==> exists reference, corpora ::
                   && IndexSays(index, KindsOf(mode), reference, corpora)
                   && EntriesStand(ExpectedKinds(mode), corpora, (kind, raw) => !verifyContents || contents(kind, raw))
                   && EntriesSay(ExpectedKinds(mode), corpora, reference, TextOf, identities)
  {
    hide RecordedEntries, EntriesSay, EntriesStand, IsSha256;
    var kinds := ExpectedKinds(mode);
    var checked := (kind, raw) => !verifyContents || contents(kind, raw);
    assert (set k | k in kinds) == KindsOf(mode);
    forall reference, corpora | IndexSays(index, KindsOf(mode), reference, corpora)
      ensures CorpusIdentities(index, mode, verifyContents, contents) == Some(identities)
              <==> EntriesStand(kinds, corpora, checked) && EntriesSay(kinds, corpora, reference, TextOf, identities)
    {
      RecordedEntriesMean(kinds, corpora, reference, checked, identities);
    }
    if CorpusIdentities(index, mode, verifyContents, contents) == Some(identities) {
      var value := index.value.fields;
      var reference, corpora := value["reference_environment_sha256"].text, value["corpora"].fields;
      assert IndexSays(index, KindsOf(mode), reference, corpora);
    }
  }

  /** The kinds come in the order of their names. */
  lemma KindsAre(mode: Mode)
    ensures ExpectedKinds(mode) == if mode.FullMode? then ["core", "mobilenet", "plugin"] else ["core", "plugin"]
  {
  }
}
