/** A registry from which a pinned reference resolves, through an index, and resolves again by its canonical form. */
module ResolutionExample {
  import opened Results
  import opened Json
  import opened StateTree
  import opened ImageReference
  import opened Resolution

  const INDEX_BODY: Bytes := [1]
  const MANIFEST_BODY: Bytes := [2]
  const CONFIG_BODY: Bytes := [3]

  function Digest(c: char): string {
    "sha256:" + seq(64, _ => c)
  }

  function Hash(body: Bytes): string {
    Digest(if body == INDEX_BODY then '1' else if body == MANIFEST_BODY then '2' else if body == CONFIG_BODY then '3'
           else '0')
  }

  function ConfigDocument(): Fields {
    map["os" := JString("linux"), "architecture" := JString("amd64")]
  }

  function ManifestEntry(): Fields {
    map["platform" := JObject(ConfigDocument()), "digest" := JString(Digest('2')), "size" := JInteger(1)]
  }

  function IndexDocument(): Fields {
    map["mediaType" := JString(OCI_INDEX), "manifests" := JArray([JObject(ManifestEntry())])]
  }

  function ConfigEntry(): Fields {
    map["mediaType" := JString(OCI_CONFIG), "digest" := JString(Digest('3')), "size" := JInteger(1)]
  }

  function ManifestDocument(): Fields {
    map["mediaType" := JString(OCI_MANIFEST), "config" := JObject(ConfigEntry())]
  }

  function ParseBody(body: Bytes): Option<Json> {
    if body == INDEX_BODY then Some(JObject(IndexDocument()))
    else if body == MANIFEST_BODY then Some(JObject(ManifestDocument()))
    else if body == CONFIG_BODY then Some(JObject(ConfigDocument()))
    else None
  }

  function Served(n: nat, request: Request): Option<HttpResponse> {
    var body := if request.kind.Blobs? then CONFIG_BODY
                else if request.selector == Digest('2') then MANIFEST_BODY else INDEX_BODY;
    Some(HttpResponse([], body))
  }

  function ExampleCodec(): Codec {
    Codec(Hash, ParseBody)
  }

  lemma DigestsDiffer(c: char, d: char)
    ensures |Digest(c)| == 71 && Digest(c)[..7] == "sha256:"
    ensures Digest(c) == Digest(d) ==> c == d
    ensures LowerHex(c) ==> IsSha256(Digest(c))
  {
    assert |"sha256:"| == 7;
    assert Digest(c)[7] == c && Digest(d)[7] == d;
  }

  lemma ConfigFields()
    ensures IsLinuxAmd64(ConfigDocument())
  {
  }

  lemma ManifestEntryFields()
    ensures Matches(JObject(ManifestEntry()))
    ensures RequiredDigest(ManifestEntry()) == Some(Digest('2')) && RequiredSize(ManifestEntry()) == Some(1)
  {
    hide Digest, IsSha256;
    ConfigFields();
    DigestsDiffer('2', '2');
  }

  lemma IndexFields()
    ensures Get(IndexDocument(), "mediaType") == JString(OCI_INDEX)
    ensures SelectDescriptor(IndexDocument()) == Some(ManifestEntry())
  {
    hide ManifestEntry, Matches;
    var items := [JObject(ManifestEntry())];
    assert "mediaType"[1] != "manifests"[1];
    ManifestEntryFields();
    assert IsOnlyMatch(items, 0);
    SelectsOnlyMatch(IndexDocument(), items, ManifestEntry());
  }

  lemma ConfigEntryFields()
    ensures Get(ConfigEntry(), "mediaType") == JString(OCI_CONFIG)
    ensures RequiredDigest(ConfigEntry()) == Some(Digest('3')) && RequiredSize(ConfigEntry()) == Some(1)
  {
    hide Digest, IsSha256;
    DigestsDiffer('3', '3');
  }

  lemma ManifestFields()
    ensures Get(ManifestDocument(), "mediaType") == JString(OCI_MANIFEST)
    ensures Get(ManifestDocument(), "config") == JObject(ConfigEntry())
  {
    hide ConfigEntry;
  }

  lemma MediaTypes()
    ensures IndexType(OCI_INDEX) && !ManifestType(OCI_INDEX) && ManifestType(OCI_MANIFEST) && ConfigType(OCI_CONFIG)
  {
  }

  lemma BodiesChecked(requested: Option<string>)
    ensures requested.None? || requested.value == Digest('1') ==>
              CheckedManifest(ExampleCodec(), Some(HttpResponse([], INDEX_BODY)), requested)
              == Some(Fetched(Digest('1'), 1, IndexDocument(), OCI_INDEX))
    ensures requested.None? || requested.value == Digest('2') ==>
              CheckedManifest(ExampleCodec(), Some(HttpResponse([], MANIFEST_BODY)), requested)
              == Some(Fetched(Digest('2'), 1, ManifestDocument(), OCI_MANIFEST))
  {
    hide Digest, IndexDocument, ManifestDocument, IndexType, ManifestType;
    IndexFields();
    ManifestFields();
    MediaTypes();
  }

  lemma ConfigResolves(parts: Parts, count: nat)
    ensures ImageConfig(ExampleCodec(), Served, parts, ManifestDocument(), count)
            == Some(Config(Digest('3'), OCI_CONFIG, ConfigDocument()))
  {
    hide Digest, ManifestDocument, ConfigDocument, ConfigEntry, ConfigType, IsLinuxAmd64;
    ManifestFields();
    ConfigEntryFields();
    ConfigFields();
    MediaTypes();
  }

  /** Pinned to the index, or to the manifest it names. */
  lemma PinnedResolves(authored: string, parts: Parts)
    requires Parse(authored) == Some(parts) && parts.digest == Some(parts.selector)
    requires parts.selector == Digest('1') || parts.selector == Digest('2')
    ensures ResolveLinuxAmd64(ExampleCodec(), Served, authored)
            == Some(ResolvedImage(parts, if parts.selector == Digest('1') then Some(Digest('1')) else None, Digest('2'),
                                  OCI_MANIFEST, Config(Digest('3'), OCI_CONFIG, ConfigDocument())))
  {
    hide Parse, Digest, IndexDocument, ManifestDocument, ConfigDocument, ManifestEntry, CheckedManifest, ImageConfig,
         IndexType, ManifestType;
    DigestsDiffer('1', '2');
    BodiesChecked(parts.digest);
    BodiesChecked(Some(Digest('2')));
    IndexFields();
    ManifestEntryFields();
    MediaTypes();
    ConfigResolves(parts, 1);
    ConfigResolves(parts, 2);
  }

  lemma PinnedForm() returns (authored: string, parts: Parts)
    ensures Parse(authored) == Some(parts) && parts.digest == Some(parts.selector) && parts.selector == Digest('1')
  {
    hide Digest, IsSha256, FormOf, Render;
    var form := Form(None, ["image"], None, Some(Digest('1')));
    DigestsDiffer('1', '1');
    assert Component("image") by {
      assert forall i :: 0 <= i < 5 ==> LowerAlphanumeric("image"[i]);
    }
    FormOfRender(form);
    authored, parts := Render(form), Meaning(form);
  }

  /** The hypotheses of the theorems on pinned and canonical references hold together of an image that is found
      through an index. */
  lemma ResolutionHappens() returns (codec: Codec, transport: Transport, authored: string)
    ensures forall body :: IsSha256(codec.hash(body))
    ensures ResolveLinuxAmd64(codec, transport, authored).Some?
    ensures var image := ResolveLinuxAmd64(codec, transport, authored).value;
            var again := ResolveLinuxAmd64(codec, transport, CanonicalReference(image));
            && image.reference.digest.Some? && image.index.Some? && again.Some?
            && Collisionless(codec, transport, image, transport, image)
            && Collisionless(codec, transport, image, transport, again.value)
  {
    hide Parse, Digest, IsSha256, ResolveLinuxAmd64, ConfigDocument, Canonical;
    var parts;
    codec, transport := ExampleCodec(), Served;
    authored, parts := PinnedForm();
    PinnedResolves(authored, parts);
    var image := ResolveLinuxAmd64(codec, transport, authored).value;
    forall body ensures IsSha256(codec.hash(body)) {
      DigestsDiffer('0', '0');
      DigestsDiffer('1', '1');
      DigestsDiffer('2', '2');
      DigestsDiffer('3', '3');
    }
    DigestsDiffer('2', '1');
    CanonicalFixedPoint(authored, parts, Digest('2'));
    PinnedResolves(CanonicalReference(image), Parse(CanonicalReference(image)).value);
    DigestsDiffer('1', '3');
    DigestsDiffer('2', '3');
  }
}
