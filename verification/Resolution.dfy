/** Resolving a reference to a linux/amd64 image whose every part was checked against its digest. */
module Resolution {
  import opened Results
  import opened Json
  import opened Text
  import opened StateTree
  import opened ImageReference

  const OCI_INDEX := "application/vnd.oci.image.index.v1+json"
  const DOCKER_INDEX := "application/vnd.docker.distribution.manifest.list.v2+json"
  const OCI_MANIFEST := "application/vnd.oci.image.manifest.v1+json"
  const DOCKER_MANIFEST := "application/vnd.docker.distribution.manifest.v2+json"
  const OCI_CONFIG := "application/vnd.oci.image.config.v1+json"
  const DOCKER_CONFIG := "application/vnd.docker.container.image.v1+json"

  predicate IndexType(mediaType: string) {
    mediaType == OCI_INDEX || mediaType == DOCKER_INDEX
  }

  predicate ManifestType(mediaType: string) {
    mediaType == OCI_MANIFEST || mediaType == DOCKER_MANIFEST
  }

  predicate ConfigType(mediaType: string) {
    mediaType == OCI_CONFIG || mediaType == DOCKER_CONFIG
  }

  type Fields = map<string, Json>

  datatype HttpResponse = HttpResponse(headers: seq<(string, string)>, body: Bytes)

  datatype Kind = Manifests | Blobs

  datatype Request = Request(reference: Parts, kind: Kind, selector: string)

  /** A registry answers each request as it likes, and may fail. */
  type Transport = (nat, Request) -> Option<HttpResponse>

  // ---------------------------------------------------------------- checks on one response

  function LowerChar(c: char): char {
    if 'A' <= c <= 'Z' then c - 'A' + 'a' else c
  }

  function Lower(s: string): string {
    seq(|s|, i requires 0 <= i < |s| => LowerChar(s[i]))
  }

  /** The first header of a name, whatever its case. */
  function Header(headers: seq<(string, string)>, name: string): Option<string> {
    if headers == [] then None
    else if Lower(headers[0].0) == Lower(name) then Some(headers[0].1)
    else Header(headers[1..], name)
  }

  function TrimLeft(s: string): string {
    if s != "" && IsSpace(s[0]) then TrimLeft(s[1..]) else s
  }

  function TrimRight(s: string): string {
    if s != "" && IsSpace(s[|s| - 1]) then TrimRight(s[..|s| - 1]) else s
  }

  /** The media type of a content-type header, without its parameters. */
  function ContentType(headers: seq<(string, string)>): Option<string> {
    match Header(headers, "content-type")
    case None => None
    case Some(value) => if value == "" then None else Some(TrimRight(TrimLeft(Split(value, ';')[0])))
  }

  function VerifiedDigest(codec: Codec, response: HttpResponse, requested: Option<string>): Option<string> {
    var computed := codec.hash(response.body);
    var announced := Header(response.headers, "docker-content-digest");
    if announced.Some? && (!IsSha256(announced.value) || announced.value != computed) then None
    else if requested.Some? && requested.value != computed then None
    else Some(computed)
  }

  function VerifiedMediaType(response: HttpResponse, document: Fields): Option<string> {
    var declared, sent := Get(document, "mediaType"), ContentType(response.headers);
    if !declared.JString? then None
    else if sent.Some? && sent.value != declared.text then None
    else if !IndexType(declared.text) && !ManifestType(declared.text) then None
    else Some(declared.text)
  }

  function Document(codec: Codec, body: Bytes): Option<Fields> {
    match codec.parse(body)
    case Some(JObject(fields)) => Some(fields)
    case _ => None
  }

  function RequiredDigest(descriptor: Fields): Option<string> {
    var digest := Get(descriptor, "digest");
    if digest.JString? && IsSha256(digest.text) then Some(digest.text) else None
  }

  function RequiredSize(descriptor: Fields): Option<nat> {
    var size := Get(descriptor, "size");
    if size.JInteger? && size.number >= 0 then Some(size.number) else None
  }

  // ---------------------------------------------------------------- the index

  predicate IsLinuxAmd64(fields: Fields) {
    Get(fields, "os") == JString("linux") && Get(fields, "architecture") == JString("amd64")
  }

  predicate Matches(descriptor: Json) {
    && descriptor.JObject?
    && var platform := Get(descriptor.fields, "platform"); platform.JObject? && IsLinuxAmd64(platform.fields)
  }

  /** The one entry of an index that runs on linux/amd64; every entry must be an object. */
  ghost predicate IsOnlyMatch(items: seq<Json>, i: nat) {
    && i < |items| && (forall j :: 0 <= j < |items| ==> items[j].JObject?)
    && forall j :: 0 <= j < |items| ==> (Matches(items[j]) <==> j == i)
  }

  function Matching(items: seq<Json>): (matches: seq<Fields>)
    requires forall j :: 0 <= j < |items| ==> items[j].JObject?
  {
    if items == [] then []
    else
      var last := items[|items| - 1];
      Matching(items[..|items| - 1]) + if Matches(last) then [last.fields] else []
  }

  function SelectDescriptor(document: Fields): Option<Fields> {
    var manifests := Get(document, "manifests");
    if !manifests.JArray? || exists j :: 0 <= j < |manifests.items| && !manifests.items[j].JObject? then None
    else
      var matches := Matching(manifests.items);
      if |matches| == 1 then Some(matches[0]) else None
  }

  method SelectLinuxAmd64Descriptor(document: Fields) returns (selected: Option<Fields>)
    ensures selected == SelectDescriptor(document)
  {
    var manifests := Get(document, "manifests");
    if !manifests.JArray? {
      return None;
    }
    var items := manifests.items;
    var matches: seq<Fields> := [];
    for i := 0 to |items|
      invariant forall j :: 0 <= j < i ==> items[j].JObject?
      invariant matches == Matching(items[..i])
    {
      if !items[i].JObject? {
        return None;
      }
      assert items[..i + 1][..i] == items[..i];
      if Matches(items[i]) {
        matches := matches + [items[i].fields];
      }
    }
    assert items[..|items|] == items;
    if |matches| != 1 {
      return None;
    }
    return Some(matches[0]);
  }

  lemma MatchingNext(items: seq<Json>, n: nat)
    requires n < |items| && forall j :: 0 <= j < |items| ==> items[j].JObject?
    ensures Matching(items[..n + 1]) == Matching(items[..n]) + if Matches(items[n]) then [items[n].fields] else []
  {
    hide Matches;
    assert items[..n + 1][..n] == items[..n];
  }

  lemma {:induction false} NoMatch(items: seq<Json>, n: nat)
    requires n <= |items| && forall j :: 0 <= j < |items| ==> items[j].JObject?
    ensures Matching(items[..n]) == [] <==> forall j :: 0 <= j < n ==> !Matches(items[j])
  {
    hide Matches, Matching;
    if n == 0 {
      EmptyMatching(items[..0]);
    } else {
      MatchingNext(items, n - 1);
      NoMatch(items, n - 1);
    }
  }

  lemma EmptyMatching(items: seq<Json>)
    requires items == []
    ensures Matching(items) == []
  {
  }

  /** One match collected: it is the only one there. */
  lemma {:induction false} OneMatch(items: seq<Json>, n: nat) returns (i: nat)
    requires n <= |items| && forall j :: 0 <= j < |items| ==> items[j].JObject?
    requires |Matching(items[..n])| == 1
    ensures i < n && Matching(items[..n])[0] == items[i].fields
    ensures forall j :: 0 <= j < n ==> (Matches(items[j]) <==> j == i)
  {
    hide Matches, Matching;
    if n == 0 {
      EmptyMatching(items[..0]);
      assert false;
    } else {
      MatchingNext(items, n - 1);
      if Matches(items[n - 1]) {
        i := n - 1;
        NoMatch(items, n - 1);
      } else {
        i := OneMatch(items, n - 1);
      }
    }
  }

  /** The only match there is collected alone. */
  lemma {:induction false} OnlyMatch(items: seq<Json>, n: nat, i: nat)
    requires i < n <= |items| && forall j :: 0 <= j < |items| ==> items[j].JObject?
    requires forall j :: 0 <= j < n ==> (Matches(items[j]) <==> j == i)
    ensures Matching(items[..n]) == [items[i].fields]
  {
    hide Matches, Matching;
    MatchingNext(items, n - 1);
    if i == n - 1 { NoMatch(items, n - 1); } else { OnlyMatch(items, n - 1, i); }
  }

  /** A descriptor is selected exactly when one entry matches and every entry is an object. */
  lemma SelectsOnlyMatch(document: Fields, items: seq<Json>, d: Fields)
    requires Get(document, "manifests") == JArray(items)
    ensures SelectDescriptor(document) == Some(d) <==> exists i: nat :: IsOnlyMatch(items, i) && items[i].fields == d
  {
    hide Matches, Matching;
    assert items[..|items|] == items;
    if SelectDescriptor(document) == Some(d) {
      var i := OneMatch(items, |items|);
      assert IsOnlyMatch(items, i);
    }
    if i: nat :| IsOnlyMatch(items, i) && items[i].fields == d {
      OnlyMatch(items, |items|, i);
    }
  }

  // ---------------------------------------------------------------- the chain

  /** A manifest or index as fetched and checked. */
  datatype Fetched = Fetched(digest: string, size: nat, document: Fields, mediaType: string)

  function CheckedManifest(codec: Codec, answer: Option<HttpResponse>, requested: Option<string>): Option<Fetched> {
    if answer.None? then None
    else
      var digest := VerifiedDigest(codec, answer.value, requested);
      var document := Document(codec, answer.value.body);
      if digest.None? || document.None? then None
      else
        var mediaType := VerifiedMediaType(answer.value, document.value);
        if mediaType.None? then None
        else Some(Fetched(digest.value, |answer.value.body|, document.value, mediaType.value))
  }

  datatype Platform = Platform(index: Option<string>, manifest: Fetched)

  /** The manifest for linux/amd64: the root itself, or the entry an index points to. */
  function PlatformManifest(codec: Codec, transport: Transport, reference: Parts, root: Fetched): Option<Platform> {
    if ManifestType(root.mediaType) then Some(Platform(None, root))
    else
      var descriptor := SelectDescriptor(root.document);
      if descriptor.None? then None
      else
        var digest, size := RequiredDigest(descriptor.value), RequiredSize(descriptor.value);
        if digest.None? || size.None? then None
        else
          var child := CheckedManifest(codec, transport(1, Request(reference, Manifests, digest.value)), digest);
          if child.None? || child.value.size != size.value || !ManifestType(child.value.mediaType) then None
          else Some(Platform(Some(root.digest), child.value))
  }

  datatype Config = Config(digest: string, mediaType: string, document: Fields)

  /** The image configuration a manifest points to, for linux/amd64. */
  function ImageConfig(codec: Codec, transport: Transport, reference: Parts, manifest: Fields,
                       count: nat): Option<Config> {
    var descriptor := Get(manifest, "config");
    if !descriptor.JObject? then None
    else
      var digest, size := RequiredDigest(descriptor.fields), RequiredSize(descriptor.fields);
      var mediaType := Get(descriptor.fields, "mediaType");
      if digest.None? || size.None? || !mediaType.JString? || !ConfigType(mediaType.text) then None
      else
        var answer := transport(count, Request(reference, Blobs, digest.value));
        if answer.None? || VerifiedDigest(codec, answer.value, digest).None? then None
        else if |answer.value.body| != size.value then None
        else
          var document := Document(codec, answer.value.body);
          if document.None? || !IsLinuxAmd64(document.value) then None
          else Some(Config(digest.value, mediaType.text, document.value))
  }

  datatype ResolvedImage = ResolvedImage(
    reference: Parts, index: Option<string>, manifestDigest: string, manifestType: string, config: Config)

  /** Resolve one reference against whatever the registry answers. */
  function ResolveLinuxAmd64(codec: Codec, transport: Transport, authored: string): Option<ResolvedImage> {
    var reference := Parse(authored);
    if reference.None? then None
    else
      var parts := reference.value;
      var root := CheckedManifest(codec, transport(0, Request(parts, Manifests, parts.selector)), parts.digest);
      if root.None? then None
      else
        var platform := PlatformManifest(codec, transport, parts, root.value);
        if platform.None? then None
        else
          var manifest := platform.value.manifest;
          var count := if platform.value.index.Some? then 2 else 1;
          var config := ImageConfig(codec, transport, parts, manifest.document, count);
          if config.None? then None
          else Some(ResolvedImage(parts, platform.value.index, manifest.digest, manifest.mediaType, config.value))
  }

  // ---------------------------------------------------------------- a resolution is a function of its digest

  /** Different bodies of these two answers have different hashes. */
  ghost predicate ToldApart(codec: Codec, a: Option<HttpResponse>, b: Option<HttpResponse>) {
    a.Some? && b.Some? && codec.hash(a.value.body) == codec.hash(b.value.body) ==> a.value.body == b.value.body
  }

  /** The answers an image was resolved from: for the reference, for the entry of an index, for the configuration. */
  ghost function Answers(transport: Transport, image: ResolvedImage): (answers: seq<Option<HttpResponse>>)
    ensures |answers| == 3
  {
    var parts, count := image.reference, if image.index.Some? then 2 else 1;
    [transport(0, Request(parts, Manifests, parts.selector)),
     if image.index.Some? then transport(1, Request(parts, Manifests, image.manifestDigest)) else None,
     transport(count, Request(parts, Blobs, image.config.digest))]
  }

  /** Among the answers of two resolutions different bodies have different hashes. */
  ghost predicate Collisionless(codec: Codec, s: Transport, x: ResolvedImage, t: Transport, y: ResolvedImage) {
    forall i, j | 0 <= i < 3 && 0 <= j < 3 :: ToldApart(codec, Answers(s, x)[i], Answers(t, y)[j])
  }

  /** Two checked manifests of one digest are the same document of the same type. */
  lemma SameDigestSameManifest(codec: Codec, a: Option<HttpResponse>, b: Option<HttpResponse>, x: Option<string>,
                               y: Option<string>)
    requires ToldApart(codec, a, b)
    requires var m := CheckedManifest(codec, a, x); var n := CheckedManifest(codec, b, y);
             m.Some? && n.Some? && m.value.digest == n.value.digest
    ensures CheckedManifest(codec, a, x) == CheckedManifest(codec, b, y)
  {
    hide Header, ContentType, IsSha256;
  }

  /** The bytes of a manifest: of the type it declares. */
  ghost predicate IsManifest(codec: Codec, body: Bytes, manifest: Fields, mediaType: string) {
    codec.parse(body) == Some(JObject(manifest)) && Get(manifest, "mediaType") == JString(mediaType)
  }

  /** What is known of a manifest that passed the checks. */
  lemma CheckedMeans(codec: Codec, answer: Option<HttpResponse>, requested: Option<string>)
    requires CheckedManifest(codec, answer, requested).Some?
    ensures var m := CheckedManifest(codec, answer, requested).value;
            && answer.Some? && m.digest == codec.hash(answer.value.body) && m.size == |answer.value.body|
            && (requested.Some? ==> m.digest == requested.value)
            && IsManifest(codec, answer.value.body, m.document, m.mediaType)
            && (IndexType(m.mediaType) || ManifestType(m.mediaType))
            && (var announced := Header(answer.value.headers, "docker-content-digest");
                announced.Some? ==> announced.value == m.digest)
            && (var sent := ContentType(answer.value.headers); sent.Some? ==> sent.value == m.mediaType)
  {
    hide Header, ContentType, IsSha256, IndexType, ManifestType;
  }

  lemma SameRootSamePlatform(codec: Codec, s: Transport, t: Transport, a: Parts, b: Parts, root: Fetched)
    requires PlatformManifest(codec, s, a, root).Some? && PlatformManifest(codec, t, b, root).Some?
    requires var p := PlatformManifest(codec, s, a, root).value; var q := PlatformManifest(codec, t, b, root).value;
             p.index.Some? && q.index.Some? ==>
               ToldApart(codec, s(1, Request(a, Manifests, p.manifest.digest)),
                         t(1, Request(b, Manifests, q.manifest.digest)))
    ensures PlatformManifest(codec, s, a, root) == PlatformManifest(codec, t, b, root)
  {
    hide CheckedManifest, SelectDescriptor, RequiredDigest, RequiredSize, ManifestType, ToldApart;
    if !ManifestType(root.mediaType) {
      var digest := RequiredDigest(SelectDescriptor(root.document).value);
      var x := s(1, Request(a, Manifests, digest.value));
      var y := t(1, Request(b, Manifests, digest.value));
      CheckedMeans(codec, x, digest);
      CheckedMeans(codec, y, digest);
      SameDigestSameManifest(codec, x, y, digest, digest);
    }
  }

  lemma SameManifestSameConfig(codec: Codec, s: Transport, t: Transport, a: Parts, b: Parts, manifest: Fields, m: nat,
                               n: nat)
    requires ImageConfig(codec, s, a, manifest, m).Some? && ImageConfig(codec, t, b, manifest, n).Some?
    requires var c := ImageConfig(codec, s, a, manifest, m).value; var d := ImageConfig(codec, t, b, manifest, n).value;
             ToldApart(codec, s(m, Request(a, Blobs, c.digest)), t(n, Request(b, Blobs, d.digest)))
    ensures ImageConfig(codec, s, a, manifest, m) == ImageConfig(codec, t, b, manifest, n)
  {
    hide Header, RequiredDigest, RequiredSize, ConfigType, IsLinuxAmd64, IsSha256, Get;
    var digest := RequiredDigest(Get(manifest, "config").fields);
    var x := s(m, Request(a, Blobs, digest.value));
    var y := t(n, Request(b, Blobs, digest.value));
    assert codec.hash(x.value.body) == digest.value == codec.hash(y.value.body);
  }

  /** Same index, manifest and configuration, whoever answered. */
  ghost predicate SameImage(x: ResolvedImage, y: ResolvedImage) {
    && x.index == y.index && x.manifestDigest == y.manifestDigest && x.manifestType == y.manifestType
    && x.config == y.config
  }

  /** The documents a resolution went through, by the answers they came in. */
  lemma Steps(codec: Codec, transport: Transport, authored: string) returns (root: Fetched, platform: Platform)
    requires ResolveLinuxAmd64(codec, transport, authored).Some?
    ensures var image := ResolveLinuxAmd64(codec, transport, authored).value;
            var parts, count := image.reference, if image.index.Some? then 2 else 1;
            && Parse(authored) == Some(parts)
            && Answers(transport, image)[0] == transport(0, Request(parts, Manifests, parts.selector))
            && CheckedManifest(codec, Answers(transport, image)[0], parts.digest) == Some(root)
            && PlatformManifest(codec, transport, parts, root) == Some(platform)
            && platform.index == image.index && platform.manifest.digest == image.manifestDigest
            && platform.manifest.mediaType == image.manifestType
            && (image.index.Some? ==>
                  Answers(transport, image)[1] == transport(1, Request(parts, Manifests, image.manifestDigest)))
            && Answers(transport, image)[2] == transport(count, Request(parts, Blobs, image.config.digest))
            && ImageConfig(codec, transport, parts, platform.manifest.document, count) == Some(image.config)
  {
    hide Parse, CheckedManifest, PlatformManifest, ImageConfig;
    var parts := Parse(authored).value;
    root := CheckedManifest(codec, transport(0, Request(parts, Manifests, parts.selector)), parts.digest).value;
    platform := PlatformManifest(codec, transport, parts, root).value;
  }

  lemma AnswersToldApart(codec: Codec, s: Transport, x: ResolvedImage, t: Transport, y: ResolvedImage, i: int, j: int)
    requires Collisionless(codec, s, x, t, y) && 0 <= i < 3 && 0 <= j < 3
    ensures ToldApart(codec, Answers(s, x)[i], Answers(t, y)[j])
  {
  }

  /** Two references pinned to one digest resolve to the same image, whatever any registry answers. */
  lemma PinnedResolutionIsFixed(codec: Codec, s: Transport, t: Transport, a: string, b: string)
    requires ResolveLinuxAmd64(codec, s, a).Some? && ResolveLinuxAmd64(codec, t, b).Some?
    requires Collisionless(codec, s, ResolveLinuxAmd64(codec, s, a).value, t, ResolveLinuxAmd64(codec, t, b).value)
    requires Parse(a).value.digest.Some? && Parse(a).value.digest == Parse(b).value.digest
    ensures SameImage(ResolveLinuxAmd64(codec, s, a).value, ResolveLinuxAmd64(codec, t, b).value)
  {
    hide Parse, CheckedManifest, PlatformManifest, ImageConfig, Collisionless, ResolveLinuxAmd64, ToldApart, Answers;
    var x, y := ResolveLinuxAmd64(codec, s, a).value, ResolveLinuxAmd64(codec, t, b).value;
    var p, q := x.reference, y.reference;
    var root, platform := Steps(codec, s, a);
    var otherRoot, otherPlatform := Steps(codec, t, b);
    CheckedMeans(codec, Answers(s, x)[0], p.digest);
    CheckedMeans(codec, Answers(t, y)[0], q.digest);
    AnswersToldApart(codec, s, x, t, y, 0, 0);
    SameDigestSameManifest(codec, Answers(s, x)[0], Answers(t, y)[0], p.digest, q.digest);
    AnswersToldApart(codec, s, x, t, y, 1, 1);
    SameRootSamePlatform(codec, s, t, p, q, root);
    var count := if platform.index.Some? then 2 else 1;
    AnswersToldApart(codec, s, x, t, y, 2, 2);
    SameManifestSameConfig(codec, s, t, p, q, platform.manifest.document, count, count);
  }

  // ---------------------------------------------------------------- re-resolving what was resolved

  /** The manifest a resolution selects was checked, in the first answer or in the second. */
  lemma PlatformIsChecked(codec: Codec, transport: Transport, reference: Parts, root: Fetched)
    requires PlatformManifest(codec, transport, reference, root).Some?
    ensures var p := PlatformManifest(codec, transport, reference, root).value;
            && ManifestType(p.manifest.mediaType)
            && (p.index.None? ==> p.manifest == root)
            && (p.index.Some? ==>
                  var digest := p.manifest.digest;
                  CheckedManifest(codec, transport(1, Request(reference, Manifests, digest)), Some(digest))
                  == Some(p.manifest))
  {
    hide CheckedManifest, SelectDescriptor, RequiredDigest, RequiredSize, ManifestType;
    if !ManifestType(root.mediaType) {
      var digest := RequiredDigest(SelectDescriptor(root.document).value);
      CheckedMeans(codec, transport(1, Request(reference, Manifests, digest.value)), digest);
    }
  }

  /** The reference a resolved image is pulled by. */
  function CanonicalReference(image: ResolvedImage): string {
    Canonical(image.reference, image.manifestDigest)
  }

  /** Pulling by the canonical reference of a resolved image gives that image: same place, same manifest, same
      configuration, and no index in between. */
  lemma CanonicalResolution(codec: Codec, s: Transport, t: Transport, authored: string)
    requires ResolveLinuxAmd64(codec, s, authored).Some?
    requires IsSha256(ResolveLinuxAmd64(codec, s, authored).value.manifestDigest)
    requires var image := ResolveLinuxAmd64(codec, s, authored).value;
             var again := ResolveLinuxAmd64(codec, t, CanonicalReference(image));
             again.Some? && Collisionless(codec, s, image, t, again.value)
    ensures var image := ResolveLinuxAmd64(codec, s, authored).value;
            var again := ResolveLinuxAmd64(codec, t, CanonicalReference(image)).value;
            && SameImage(again, image.(index := None))
            && again.reference.registry == image.reference.registry
            && again.reference.repository == image.reference.repository
            && CanonicalReference(again) == CanonicalReference(image)
  {
    hide Parse, CheckedManifest, PlatformManifest, ImageConfig, Collisionless, ManifestType, IsSha256, ToldApart,
         ResolveLinuxAmd64, Answers;
    var image := ResolveLinuxAmd64(codec, s, authored).value;
    var again := ResolveLinuxAmd64(codec, t, CanonicalReference(image)).value;
    var root, platform := Steps(codec, s, authored);
    var newRoot, newPlatform := Steps(codec, t, CanonicalReference(image));
    CanonicalFixedPoint(authored, image.reference, image.manifestDigest);
    PlatformIsChecked(codec, s, image.reference, root);
    var i := if image.index.Some? then 1 else 0;
    var requested := if image.index.Some? then Some(image.manifestDigest) else image.reference.digest;
    CheckedMeans(codec, Answers(t, again)[0], again.reference.digest);
    AnswersToldApart(codec, s, image, t, again, i, 0);
    SameDigestSameManifest(codec, Answers(s, image)[i], Answers(t, again)[0], requested, again.reference.digest);
    RootManifest(codec, t, again.reference, newRoot);
    AnswersToldApart(codec, s, image, t, again, 2, 2);
    SameManifestSameConfig(codec, s, t, image.reference, again.reference, platform.manifest.document,
                           if image.index.Some? then 2 else 1, 1);
  }

  // ---------------------------------------------------------------- what a resolution has verified

  /** A descriptor names these bytes: their digest and their length. */
  ghost predicate Names(codec: Codec, descriptor: Fields, body: Bytes) {
    Get(descriptor, "digest") == JString(codec.hash(body)) && Get(descriptor, "size") == JInteger(|body|)
  }

  /** The configuration bytes: named by the manifest, for linux/amd64. */
  ghost predicate IsConfigOf(codec: Codec, manifest: Fields, config: Config, body: Bytes) {
    var descriptor := Get(manifest, "config");
    && descriptor.JObject? && Names(codec, descriptor.fields, body)
    && Get(descriptor.fields, "mediaType") == JString(config.mediaType) && ConfigType(config.mediaType)
    && config.digest == codec.hash(body) && codec.parse(body) == Some(JObject(config.document))
    && IsLinuxAmd64(config.document)
  }

  /** The manifest bytes are those of the index's only linux/amd64 entry. */
  ghost predicate IsEntryOf(codec: Codec, index: Fields, body: Bytes) {
    exists items: seq<Json>, i: nat ::
      Get(index, "manifests") == JArray(items) && IsOnlyMatch(items, i) && Names(codec, items[i].fields, body)
  }

  lemma PlatformMeans(codec: Codec, transport: Transport, reference: Parts, root: Fetched) returns (body: Bytes)
    requires PlatformManifest(codec, transport, reference, root).Some? && !ManifestType(root.mediaType)
    ensures var p := PlatformManifest(codec, transport, reference, root).value;
            && p.index == Some(root.digest) && IsEntryOf(codec, root.document, body)
            && p.manifest.digest == codec.hash(body) && ManifestType(p.manifest.mediaType)
            && IsManifest(codec, body, p.manifest.document, p.manifest.mediaType)
  {
    hide CheckedManifest, SelectDescriptor, ManifestType, Matches, IsManifest, IsSha256;
    var descriptor := SelectDescriptor(root.document).value;
    var digest := RequiredDigest(descriptor);
    var answer := transport(1, Request(reference, Manifests, digest.value));
    CheckedMeans(codec, answer, digest);
    body := answer.value.body;
    var items := SelectedItems(root.document);
    SelectsOnlyMatch(root.document, items, descriptor);
    var i: nat :| IsOnlyMatch(items, i) && items[i].fields == descriptor;
    assert Names(codec, items[i].fields, body);
  }

  lemma SelectedItems(document: Fields) returns (items: seq<Json>)
    requires SelectDescriptor(document).Some?
    ensures Get(document, "manifests") == JArray(items)
  {
    hide Get, Matching;
    items := Get(document, "manifests").items;
  }

  lemma ConfigMeans(codec: Codec, transport: Transport, reference: Parts, manifest: Fields, count: nat)
    returns (body: Bytes)
    requires ImageConfig(codec, transport, reference, manifest, count).Some?
    ensures IsConfigOf(codec, manifest, ImageConfig(codec, transport, reference, manifest, count).value, body)
  {
    hide Header, IsLinuxAmd64, ConfigType, IsSha256;
    var digest := RequiredDigest(Get(manifest, "config").fields);
    body := transport(count, Request(reference, Blobs, digest.value)).value.body;
  }

  /** A resolved image is verified down to its bytes: there are a manifest and a configuration with the reported
      digests, the one naming the other by digest and length, and through an index it is the only linux/amd64 entry;
      a requested digest is that of the first document. */
  lemma ResolvedIsVerified(codec: Codec, transport: Transport, authored: string)
    returns (manifest: Fields, manifestBody: Bytes, configBody: Bytes)
    requires ResolveLinuxAmd64(codec, transport, authored).Some?
    ensures var image := ResolveLinuxAmd64(codec, transport, authored).value;
            && Parse(authored) == Some(image.reference)
            && codec.hash(manifestBody) == image.manifestDigest
            && ManifestType(image.manifestType) && IsManifest(codec, manifestBody, manifest, image.manifestType)
            && IsConfigOf(codec, manifest, image.config, configBody)
            && (image.reference.digest.Some? ==>
                  image.reference.digest.value == image.index.GetOr(image.manifestDigest))
            && (image.index.Some? ==>
                  exists indexBody, index, indexType ::
                    codec.hash(indexBody) == image.index.value && IndexType(indexType)
                    && IsManifest(codec, indexBody, index, indexType) && IsEntryOf(codec, index, manifestBody))
  {
    hide Parse, CheckedManifest, ImageConfig, ManifestType, IndexType, IsManifest, IsConfigOf, IsEntryOf, Header,
         ContentType, PlatformManifest;
    var parts := Parse(authored).value;
    var answer := transport(0, Request(parts, Manifests, parts.selector));
    CheckedMeans(codec, answer, parts.digest);
    var root := CheckedManifest(codec, answer, parts.digest).value;
    var platform := PlatformManifest(codec, transport, parts, root).value;
    manifest, manifestBody := platform.manifest.document, answer.value.body;
    if ManifestType(root.mediaType) {
      RootManifest(codec, transport, parts, root);
    } else {
      manifestBody := PlatformMeans(codec, transport, parts, root);
    }
    configBody := ConfigMeans(codec, transport, parts, manifest, if platform.index.Some? then 2 else 1);
  }

  lemma RootManifest(codec: Codec, transport: Transport, reference: Parts, root: Fetched)
    requires ManifestType(root.mediaType)
    ensures PlatformManifest(codec, transport, reference, root) == Some(Platform(None, root))
  {
  }
}
