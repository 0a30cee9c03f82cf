/** What the checks of a resolution ask, told of headers, bytes and JSON alone. */
module ResolutionMeaning {
  import opened Results
  import opened Json
  import opened Text
  import opened StateTree
  import opened ImageReference
  import opened Resolution

  // ---------------------------------------------------------------- headers

  /** The same letter, whatever its case; any other character only itself. */
  ghost predicate SameLetter(c: char, d: char) {
    || c == d
    || ('a' <= c <= 'z' && 'A' <= d <= 'Z' && c - 'a' == d - 'A')
    || ('A' <= c <= 'Z' && 'a' <= d <= 'z' && c - 'A' == d - 'a')
  }

  ghost predicate SameName(a: string, b: string) {
    |a| == |b| && forall i :: 0 <= i < |a| ==> SameLetter(a[i], b[i])
  }

  /** The first header of this name, in any case, has this value. */
  ghost predicate FirstHeader(headers: seq<(string, string)>, name: string, value: string) {
    exists i :: 0 <= i < |headers| && SameName(headers[i].0, name) && headers[i].1 == value
                && forall j :: 0 <= j < i ==> !SameName(headers[j].0, name)
  }

  lemma LetterCase(c: char, d: char)
    ensures LowerChar(c) == LowerChar(d) <==> SameLetter(c, d)
  {
  }

  lemma NameCase(a: string, b: string)
    ensures Lower(a) == Lower(b) <==> SameName(a, b)
  {
    hide LowerChar, SameLetter;
    assert |Lower(a)| == |a| && |Lower(b)| == |b|;
    forall i | 0 <= i < |a| && i < |b| ensures Lower(a)[i] == Lower(b)[i] <==> SameLetter(a[i], b[i]) {
      LetterCase(a[i], b[i]);
    }
    if Lower(a) == Lower(b) {
      forall i | 0 <= i < |a| ensures SameLetter(a[i], b[i]) {
        assert Lower(a)[i] == Lower(b)[i];
      }
    }
  }

  /** The header found is the first of its name; none is found exactly when there is none. */
  lemma {:induction false} HeaderMeans(headers: seq<(string, string)>, name: string, value: string)
    ensures Header(headers, name) == Some(value) <==> FirstHeader(headers, name, value)
    ensures Header(headers, name).None? <==> forall i :: 0 <= i < |headers| ==> !SameName(headers[i].0, name)
  {
    hide Lower, SameName;
    if headers != [] {
      var rest := headers[1..];
      NameCase(headers[0].0, name);
      HeaderMeans(rest, name, value);
      assert forall i :: 0 <= i < |rest| ==> rest[i] == headers[i + 1];
      if FirstHeader(rest, name, value) && !SameName(headers[0].0, name) {
        var i :| 0 <= i < |rest| && SameName(rest[i].0, name) && rest[i].1 == value
                 && forall j :: 0 <= j < i ==> !SameName(rest[j].0, name);
        forall j | 0 <= j < i + 1 ensures !SameName(headers[j].0, name) {
          if j > 0 { assert headers[j] == rest[j - 1]; }
        }
        assert headers[i + 1] == rest[i];
      }
      if FirstHeader(headers, name, value) && !SameName(headers[0].0, name) {
        var i :| 0 <= i < |headers| && SameName(headers[i].0, name) && headers[i].1 == value
                 && forall j :: 0 <= j < i ==> !SameName(headers[j].0, name);
        assert rest[i - 1] == headers[i];
        forall j | 0 <= j < i - 1 ensures !SameName(rest[j].0, name) {
          assert rest[j] == headers[j + 1];
        }
      }
    }
  }

  // ---------------------------------------------------------------- the content type

  ghost predicate AllSpace(s: string) {
    forall i :: 0 <= i < |s| ==> IsSpace(s[i])
  }

  /** The media type stands between white space and the first semicolon. */
  ghost predicate StandsIn(value: string, left: string, mediaType: string, right: string, rest: string) {
    && value == left + mediaType + right + rest
    && AllSpace(left) && AllSpace(right) && ';' !in left + mediaType + right
    && (rest == "" || rest[0] == ';')
    && (mediaType == "" || (!IsSpace(mediaType[0]) && !IsSpace(mediaType[|mediaType| - 1])))
  }

  /** A content type: the text before the first semicolon, without the white space around it. */
  ghost predicate TypeOf(value: string, mediaType: string) {
    exists left, right, rest :: StandsIn(value, left, mediaType, right, rest)
  }

  lemma {:induction false} LeftTrimmed(s: string) returns (left: string)
    ensures s == left + TrimLeft(s) && AllSpace(left)
    ensures TrimLeft(s) == "" || !IsSpace(TrimLeft(s)[0])
  {
    hide IsSpace;
    if s != "" && IsSpace(s[0]) {
      var more := LeftTrimmed(s[1..]);
      left := [s[0]] + more;
    } else {
      left := "";
    }
  }

  lemma {:induction false} RightTrimmed(s: string) returns (right: string)
    ensures s == TrimRight(s) + right && AllSpace(right)
    ensures TrimRight(s) == "" || !IsSpace(TrimRight(s)[|TrimRight(s)| - 1])
  {
    hide IsSpace;
    if s != "" && IsSpace(s[|s| - 1]) {
      var more := RightTrimmed(s[..|s| - 1]);
      right := more + [s[|s| - 1]];
      assert s == s[..|s| - 1] + [s[|s| - 1]];
    } else {
      right := "";
    }
  }

  lemma {:induction false} BeforeFirst(s: string, separator: char) returns (rest: string)
    ensures s == Split(s, separator)[0] + rest && separator !in Split(s, separator)[0]
    ensures rest == "" || rest[0] == separator
  {
    if s == "" {
      rest := "";
    } else if s[0] == separator {
      rest := s;
    } else {
      rest := BeforeFirst(s[1..], separator);
    }
  }

  /** The content type read from a nonempty header is the type it says. */
  lemma ContentTypeMeans(headers: seq<(string, string)>, value: string)
    requires FirstHeader(headers, "content-type", value) && value != ""
    ensures ContentType(headers).Some? && TypeOf(value, ContentType(headers).value)
  {
    hide IsSpace, FirstHeader, Header, AllSpace;
    HeaderMeans(headers, "content-type", value);
    var head := Split(value, ';')[0];
    var rest := BeforeFirst(value, ';');
    var left := LeftTrimmed(head);
    var middle := TrimLeft(head);
    var right := RightTrimmed(middle);
    var mediaType := TrimRight(middle);
    assert middle == mediaType + right;
    assert head == left + mediaType + right;
    assert mediaType != "" ==> mediaType[0] == middle[0];
    assert StandsIn(value, left, mediaType, right, rest);
    assert ContentType(headers) == Some(mediaType);
  }

  lemma NoContentType(headers: seq<(string, string)>)
    ensures ContentType(headers).None?
            <==> !exists value :: value != "" && FirstHeader(headers, "content-type", value)
  {
    hide FirstHeader, Header;
    var found := Header(headers, "content-type");
    forall value ensures found == Some(value) <==> FirstHeader(headers, "content-type", value) {
      HeaderMeans(headers, "content-type", value);
    }
  }

  // ---------------------------------------------------------------- one response

  /** A digest that was announced or asked for is the digest of the bytes. */
  ghost predicate DigestStands(codec: Codec, response: HttpResponse, requested: Option<string>) {
    && (forall value :: FirstHeader(response.headers, "docker-content-digest", value) ==>
          IsSha256(value) && value == codec.hash(response.body))
    && (requested.Some? ==> requested.value == codec.hash(response.body))
  }

  lemma DigestVerified(codec: Codec, response: HttpResponse, requested: Option<string>)
    ensures VerifiedDigest(codec, response, requested)
            == if DigestStands(codec, response, requested) then Some(codec.hash(response.body)) else None
  {
    hide FirstHeader, Header, IsSha256;
    var announced := Header(response.headers, "docker-content-digest");
    forall value
      ensures announced == Some(value) <==> FirstHeader(response.headers, "docker-content-digest", value)
    {
      HeaderMeans(response.headers, "docker-content-digest", value);
    }
  }

  ghost predicate IsImageType(mediaType: string) {
    || mediaType == "application/vnd.oci.image.index.v1+json"
    || mediaType == "application/vnd.docker.distribution.manifest.list.v2+json"
    || mediaType == "application/vnd.oci.image.manifest.v1+json"
    || mediaType == "application/vnd.docker.distribution.manifest.v2+json"
  }

  /** A response is accepted as a manifest or index exactly when its digest stands, its bytes are a JSON object that
      declares one of the four types, and a content type sent with it is the declared one. */
  lemma ManifestChecked(codec: Codec, answer: Option<HttpResponse>, requested: Option<string>, checked: Fetched)
    ensures CheckedManifest(codec, answer, requested) == Some(checked) <==>
              && answer.Some? && DigestStands(codec, answer.value, requested)
              && checked.digest == codec.hash(answer.value.body) && checked.size == |answer.value.body|
              && codec.parse(answer.value.body) == Some(JObject(checked.document))
              && "mediaType" in checked.document && checked.document["mediaType"] == JString(checked.mediaType)
              && IsImageType(checked.mediaType)
              && (ContentType(answer.value.headers).Some? ==>
                    ContentType(answer.value.headers).value == checked.mediaType)
  {
    hide DigestStands, Header, ContentType, VerifiedDigest;
    if answer.Some? { DigestVerified(codec, answer.value, requested); }
  }

  // ---------------------------------------------------------------- the platform and the configuration

  /** A descriptor names a digest and a length. */
  ghost predicate Descriptor(fields: Fields, digest: string, size: int) {
    && "digest" in fields && fields["digest"] == JString(digest) && IsSha256(digest)
    && "size" in fields && fields["size"] == JInteger(size) && 0 <= size
  }

  lemma DescriptorMeans(fields: Fields, digest: string, size: nat)
    ensures Descriptor(fields, digest, size)
            <==> RequiredDigest(fields) == Some(digest) && RequiredSize(fields) == Some(size)
  {
    hide IsSha256;
  }

  /** The answer for a digest at some request. */
  ghost predicate Answered(codec: Codec, transport: Transport, n: nat, request: Request, size: nat, body: Bytes) {
    && transport(n, request).Some? && transport(n, request).value.body == body && |body| == size
    && DigestStands(codec, transport(n, request).value, Some(request.selector))
  }

  /** A configuration is found exactly when the manifest describes it with a configuration type, and the bytes answered
      for its digest have the described length and are a JSON object for linux/amd64. */
  lemma ConfigFound(codec: Codec, transport: Transport, reference: Parts, manifest: Fields, count: nat, config: Config)
    ensures ImageConfig(codec, transport, reference, manifest, count) == Some(config) <==>
              && "config" in manifest && manifest["config"].JObject?
              && var fields := manifest["config"].fields;
                 && "mediaType" in fields && fields["mediaType"] == JString(config.mediaType)
                 && (config.mediaType == "application/vnd.oci.image.config.v1+json"
                     || config.mediaType == "application/vnd.docker.container.image.v1+json")
                 && exists size: nat, body ::
                      && Descriptor(fields, config.digest, size)
                      && Answered(codec, transport, count, Request(reference, Blobs, config.digest), size, body)
                      && codec.parse(body) == Some(JObject(config.document))
                      && "os" in config.document && config.document["os"] == JString("linux")
                      && "architecture" in config.document && config.document["architecture"] == JString("amd64")
  {
    hide Descriptor, DigestStands, VerifiedDigest, RequiredDigest, RequiredSize;
    if "config" in manifest && manifest["config"].JObject? {
      var fields := manifest["config"].fields;
      forall digest, size: nat
        ensures Descriptor(fields, digest, size)
                <==> RequiredDigest(fields) == Some(digest) && RequiredSize(fields) == Some(size)
      {
        DescriptorMeans(fields, digest, size);
      }
      var digest, size := RequiredDigest(fields), RequiredSize(fields);
      if digest.Some? && size.Some? {
        var answer := transport(count, Request(reference, Blobs, digest.value));
        if answer.Some? {
          DigestVerified(codec, answer.value, digest);
          assert |answer.value.body| == size.value && DigestStands(codec, answer.value, digest) ==>
              Answered(codec, transport, count, Request(reference, Blobs, digest.value), size.value, answer.value.body);
        }
      }
    }
  }

  /** An entry of an index that runs on linux/amd64. */
  ghost predicate RunsHere(entry: Json) {
    && entry.JObject? && "platform" in entry.fields && entry.fields["platform"].JObject?
    && var platform := entry.fields["platform"].fields;
       && "os" in platform && platform["os"] == JString("linux")
       && "architecture" in platform && platform["architecture"] == JString("amd64")
  }

  lemma MatchesMeans(entry: Json)
    ensures Matches(entry) <==> RunsHere(entry)
  {
  }

  ghost predicate IsManifestType(mediaType: string) {
    || mediaType == "application/vnd.oci.image.manifest.v1+json"
    || mediaType == "application/vnd.docker.distribution.manifest.v2+json"
  }

  /** The entry is the only one of the index that runs on linux/amd64, every entry is an object, and the checked
      manifest is the one it describes. */
  ghost predicate EntryFound(codec: Codec, transport: Transport, reference: Parts, items: seq<Json>, i: nat,
                             manifest: Fetched) {
    && i < |items| && (forall j :: 0 <= j < |items| ==> items[j].JObject? && (RunsHere(items[j]) <==> j == i))
    && Descriptor(items[i].fields, manifest.digest, manifest.size)
    && CheckedManifest(codec, transport(1, Request(reference, Manifests, manifest.digest)), Some(manifest.digest))
       == Some(manifest)
    && IsManifestType(manifest.mediaType)
  }

  /** A manifest for the platform is found exactly when the root is a manifest, or the root is an index whose only
      linux/amd64 entry describes one. */
  lemma PlatformFound(codec: Codec, transport: Transport, reference: Parts, root: Fetched, platform: Platform)
    ensures PlatformManifest(codec, transport, reference, root) == Some(platform) <==>
              if IsManifestType(root.mediaType) then platform == Platform(None, root)
              else
                && platform.index == Some(root.digest)
                && "manifests" in root.document && root.document["manifests"].JArray?
                && exists i: nat :: EntryFound(codec, transport, reference, root.document["manifests"].items, i,
                                               platform.manifest)
  {
    hide CheckedManifest, RequiredDigest, RequiredSize, Descriptor, Matching, Matches, RunsHere;
    if !IsManifestType(root.mediaType) && "manifests" in root.document && root.document["manifests"].JArray? {
      var items := root.document["manifests"].items;
      forall entry ensures Matches(entry) <==> RunsHere(entry) { MatchesMeans(entry); }
      forall d ensures SelectDescriptor(root.document) == Some(d)
                       <==> exists i: nat :: IsOnlyMatch(items, i) && items[i].fields == d
      {
        SelectsOnlyMatch(root.document, items, d);
      }
      forall fields, digest, size: nat
        ensures Descriptor(fields, digest, size)
                <==> RequiredDigest(fields) == Some(digest) && RequiredSize(fields) == Some(size)
      {
        DescriptorMeans(fields, digest, size);
      }
      forall answer, digest ensures CheckedManifest(codec, answer, Some(digest)).Some? ==>
                                      CheckedManifest(codec, answer, Some(digest)).value.digest == digest
      {
        if CheckedManifest(codec, answer, Some(digest)).Some? { CheckedMeans(codec, answer, Some(digest)); }
      }
      hide SelectDescriptor;
      if SelectDescriptor(root.document).Some? {
        var i: nat :| IsOnlyMatch(items, i) && items[i].fields == SelectDescriptor(root.document).value;
        forall j: nat, manifest | EntryFound(codec, transport, reference, items, j, manifest) ensures j == i {
          assert RunsHere(items[j]);
        }
        assert PlatformManifest(codec, transport, reference, root) == Some(platform)
               && platform.index == Some(root.digest) ==>
            EntryFound(codec, transport, reference, items, i, platform.manifest);
      } else {
        forall j: nat, manifest ensures !EntryFound(codec, transport, reference, items, j, manifest) {
          if EntryFound(codec, transport, reference, items, j, manifest) {
            assert IsOnlyMatch(items, j);
            SelectsOnlyMatch(root.document, items, items[j].fields);
          }
        }
      }
    }
  }
}
