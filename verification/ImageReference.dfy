/** Docker-compatible image references: a grammar, the parser, and the canonical form that parses to itself. */
module ImageReference {
  import opened Results
  import opened Json
  import opened Text

  // ---------------------------------------------------------------- characters and names

  predicate LowerAlphanumeric(c: char) {
    '0' <= c <= '9' || 'a' <= c <= 'z'
  }

  predicate TagStart(c: char) {
    LowerAlphanumeric(c) || 'A' <= c <= 'Z' || c == '_'
  }

  /** Python's `str.isspace` for one character. */
  predicate IsSpace(c: char) {
    || '\t' <= c <= '\r' || '\U{1C}' <= c <= ' ' || c == '\U{85}' || c == '\U{A0}' || c == '\U{1680}'
    || '\U{2000}' <= c <= '\U{200A}' || c == '\U{2028}' || c == '\U{2029}' || c == '\U{202F}' || c == '\U{205F}'
    || c == '\U{3000}'
  }

  /** The characters an accepted reference is made of. */
  predicate ReferenceChar(c: char) {
    TagStart(c) || c == '.' || c == '-' || c == ':' || c == '/' || c == '@'
  }

  predicate HostName(s: string) {
    && s != "" && LowerAlphanumeric(s[0]) && LowerAlphanumeric(s[|s| - 1])
    && forall i :: 0 <= i < |s| ==> LowerAlphanumeric(s[i]) || s[i] == '.' || s[i] == '-'
  }

  predicate Digits(s: string) {
    forall i :: 0 <= i < |s| ==> '0' <= s[i] <= '9'
  }

  function Decimal(s: string): nat
    requires Digits(s)
  {
    if s == "" then 0 else 10 * Decimal(s[..|s| - 1]) + (s[|s| - 1] - '0') as nat
  }

  predicate Port(s: string) {
    1 <= |s| <= 5 && Digits(s)
  }

  /** A host name with an optional port of at most five digits. */
  predicate RegistrySyntax(s: string) {
    match IndexOf(s, ':')
    case None => HostName(s)
    case Some(i) => HostName(s[..i]) && Port(s[i + 1..])
  }

  predicate PortInRange(s: string)
    requires RegistrySyntax(s)
  {
    match IndexOf(s, ':')
    case None => true
    case Some(i) => Decimal(s[i + 1..]) <= 65535
  }

  predicate Separator(c: char) {
    c == '.' || c == '_' || c == '-'
  }

  predicate ThreeUnderscores(s: string, i: nat)
    requires i + 2 < |s|
  {
    s[i] == '_' && s[i + 1] == '_' && s[i + 2] == '_'
  }

  /** Lowercase words; between two words stands one dot, one or two underscores, or any number of dashes. */
  predicate Component(s: string) {
    && s != "" && LowerAlphanumeric(s[0]) && LowerAlphanumeric(s[|s| - 1])
    && (forall i :: 0 <= i < |s| ==> LowerAlphanumeric(s[i]) || Separator(s[i]))
    && (forall i, j :: 0 <= i < |s| && 0 <= j < |s| && j == i + 1 && Separator(s[i]) && Separator(s[j]) ==>
          s[i] == s[j] != '.')
    && (forall i :: 0 <= i < |s| - 2 ==> !ThreeUnderscores(s, i))
  }

  predicate Tag(s: string) {
    1 <= |s| <= 128 && TagStart(s[0]) && forall i :: 1 <= i < |s| ==> TagStart(s[i]) || s[i] == '.' || s[i] == '-'
  }

  /** A first component that names a registry. */
  predicate HostLike(s: string) {
    '.' in s || ':' in s || s == "localhost"
  }

  // ---------------------------------------------------------------- the grammar

  /** A reference taken apart: an optional host, the path, an optional tag and an optional digest. */
  datatype Form = Form(host: Option<string>, path: seq<string>, tag: Option<string>, digest: Option<string>)

  predicate WellFormed(form: Form) {
    && form.path != [] && (forall p :: p in form.path ==> Component(p))
    && (form.host.Some? ==>
          HostLike(form.host.value) && RegistrySyntax(form.host.value) && PortInRange(form.host.value))
    && (form.host.None? ==> |form.path| == 1 || !HostLike(form.path[0]))
    && (form.tag.Some? ==> Tag(form.tag.value))
    && (form.digest.Some? ==> IsSha256(form.digest.value))
  }

  function Hosts(form: Form): seq<string> {
    if form.host.Some? then [form.host.value] else []
  }

  function Bare(form: Form): string
    requires form.path != []
  {
    Join(Hosts(form) + form.path, '/')
  }

  function Suffix(mark: char, part: Option<string>): string {
    if part.Some? then [mark] + part.value else ""
  }

  /** A reference as it is written. */
  function Render(form: Form): string
    requires form.path != []
  {
    Bare(form) + Suffix(':', form.tag) + Suffix('@', form.digest)
  }

  datatype Parts = Parts(authored: string, registry: string, repository: string, selector: string, tag: Option<string>,
                         digest: Option<string>)

  /** The repository path: Docker's own registry keeps unqualified images under `library`. */
  function FullPath(registry: string, path: seq<string>): (full: seq<string>)
    ensures full != [] || path == []
  {
    if registry == "docker.io" && |path| == 1 then ["library"] + path else path
  }

  function Registry(form: Form): string {
    form.host.GetOr("docker.io")
  }

  /** What a reference means: a digest selects when there is one, and otherwise the tag, `latest` by default. */
  function Meaning(form: Form): Parts
    requires form.path != []
  {
    var tag := if form.digest.Some? then form.tag else Some(form.tag.GetOr("latest"));
    Parts(Render(form), Registry(form), Join(FullPath(Registry(form), form.path), '/'),
          if form.digest.Some? then form.digest.value else tag.value, tag, form.digest)
  }

  // ---------------------------------------------------------------- taking a reference apart

  function CutDigest(authored: string): (string, Option<string>) {
    match IndexOf(authored, '@')
    case None => (authored, None)
    case Some(i) => (authored[..i], Some(authored[i + 1..]))
  }

  function CutTag(name: string): (string, Option<string>) {
    var colon := LastIndexOf(name, ':');
    if colon > LastIndexOf(name, '/') then (name[..colon], Some(name[colon + 1..])) else (name, None)
  }

  function CutHost(components: seq<string>): (cut: (Option<string>, seq<string>))
    requires components != []
    ensures cut.1 != []
  {
    if |components| > 1 && HostLike(components[0]) then (Some(components[0]), components[1..]) else (None, components)
  }

  function FormOf(authored: string): (form: Form)
    ensures form.path != []
  {
    var (name, digest) := CutDigest(authored);
    var (bare, tag) := CutTag(name);
    var (host, path) := CutHost(Split(bare, '/'));
    Form(host, path, tag, digest)
  }

  /** The reading of a reference, if it has one. */
  function Parse(authored: string): Option<Parts> {
    if WellFormed(FormOf(authored)) then Some(Meaning(FormOf(authored))) else None
  }

  lemma CutDigestRestores(authored: string)
    ensures var (name, digest) := CutDigest(authored); name + Suffix('@', digest) == authored
  {
    hide IndexOf;
  }

  lemma CutTagRestores(name: string)
    ensures var (bare, tag) := CutTag(name); bare + Suffix(':', tag) == name
  {
    hide LastIndexOf;
  }

  lemma CutHostRestores(bare: string)
    ensures var (host, path) := CutHost(Split(bare, '/')); Bare(Form(host, path, None, None)) == bare
  {
    hide Split, Join, HostLike;
    JoinSplit(bare, '/');
    var parts := Split(bare, '/');
    assert [parts[0]] + parts[1..] == parts && [] + parts == parts;
  }

  /** Taking apart loses nothing. */
  lemma RenderFormOf(authored: string)
    ensures Render(FormOf(authored)) == authored
  {
    hide CutDigest, CutTag, CutHost, Split, Join, Suffix;
    CutDigestRestores(authored);
    CutTagRestores(CutDigest(authored).0);
    CutHostRestores(CutTag(CutDigest(authored).0).0);
  }

  // ---------------------------------------------------------------- rendering and taking apart

  lemma {:induction false} JoinWithout(parts: seq<string>, separator: char, c: char)
    requires parts != [] && c != separator && forall p :: p in parts ==> c !in p
    ensures c !in Join(parts, separator)
  {
    if |parts| > 1 {
      assert forall p :: p in parts[1..] ==> p in parts;
      JoinWithout(parts[1..], separator, c);
    }
    assert parts[0] in parts;
  }

  lemma ComponentClean(s: string, c: char)
    requires Component(s) && (c == ':' || c == '/' || c == '@')
    ensures c !in s
  {
  }

  lemma RegistryClean(s: string, c: char)
    requires RegistrySyntax(s) && (c == '/' || c == '@')
    ensures c !in s
  {
    hide IndexOf;
    match IndexOf(s, ':')
    case None =>
    case Some(i) => assert s == s[..i] + [':'] + s[i + 1..];
  }

  lemma TagClean(s: string, c: char)
    requires Tag(s) && (c == ':' || c == '/' || c == '@')
    ensures c !in s
  {
  }

  /** The bare name has no `@`, and no colon after its last slash. */
  lemma BareClean(form: Form)
    requires WellFormed(form)
    ensures '@' !in Bare(form)
    ensures LastIndexOf(Bare(form), ':') <= LastIndexOf(Bare(form), '/')
    ensures Split(Bare(form), '/') == Hosts(form) + form.path
  {
    hide LastIndexOf, IndexOf, Component, RegistrySyntax, PortInRange, HostLike, Split;
    var parts := Hosts(form) + form.path;
    forall p | p in parts
      ensures '@' !in p && '/' !in p
    {
      if p in form.path {
        ComponentClean(p, '@');
        ComponentClean(p, '/');
      } else {
        RegistryClean(p, '@');
        RegistryClean(p, '/');
      }
    }
    JoinWithout(parts, '/', '@');
    SplitJoin(parts, '/');
    forall p | p in form.path
      ensures ':' !in p
    {
      ComponentClean(p, ':');
    }
    JoinWithout(form.path, '/', ':');
    if form.host.Some? {
      var rest := Join(form.path, '/');
      assert parts[1..] == form.path;
      assert Bare(form) == form.host.value + (['/'] + rest);
      LastIndexOfHead(form.host.value, ['/'] + rest, ':');
      assert Bare(form)[|form.host.value|] == '/';
    } else {
      assert parts == form.path;
    }
  }

  /** Taking a rendered reference apart gives its form back: no two forms are written alike. */
  lemma FormOfRender(form: Form)
    requires WellFormed(form)
    ensures FormOf(Render(form)) == form
  {
    BareClean(form);
    CutDigestOf(form);
    CutTagOf(form);
    CutHostOf(form);
  }

  lemma CutDigestOf(form: Form)
    requires WellFormed(form) && '@' !in Bare(form)
    ensures CutDigest(Render(form)) == (Bare(form) + Suffix(':', form.tag), form.digest)
  {
    hide IndexOf, Bare, Component, RegistrySyntax, PortInRange, HostLike;
    var name := Bare(form) + Suffix(':', form.tag);
    if form.tag.Some? { TagClean(form.tag.value, '@'); }
    assert '@' !in name;
    if form.digest.Some? {
      IndexOfAt(name, form.digest.value, '@');
      assert Render(form) == name + ['@'] + form.digest.value;
    } else {
      assert Render(form) == name;
    }
  }

  lemma CutTagOf(form: Form)
    requires WellFormed(form) && LastIndexOf(Bare(form), ':') <= LastIndexOf(Bare(form), '/')
    ensures CutTag(Bare(form) + Suffix(':', form.tag)) == (Bare(form), form.tag)
  {
    hide LastIndexOf, Bare, Component, RegistrySyntax, PortInRange, HostLike;
    var bare := Bare(form);
    if form.tag.Some? {
      TagClean(form.tag.value, ':');
      TagClean(form.tag.value, '/');
      assert bare + Suffix(':', form.tag) == bare + [':'] + form.tag.value;
      LastIndexOfAt(bare, form.tag.value, ':');
      assert bare + Suffix(':', form.tag) == bare + ([':'] + form.tag.value);
      LastIndexOfHead(bare, [':'] + form.tag.value, '/');
    } else {
      assert bare + Suffix(':', form.tag) == bare;
    }
  }

  lemma CutHostOf(form: Form)
    requires WellFormed(form)
    ensures CutHost(Hosts(form) + form.path) == (form.host, form.path)
  {
    hide Component, RegistrySyntax, PortInRange, HostLike;
    assert form.host.Some? ==> (Hosts(form) + form.path)[1..] == form.path;
    assert form.host.None? ==> Hosts(form) + form.path == form.path;
  }

  /** The parser reads every written form as what it means, and reads nothing else. */
  lemma ParseMeetsGrammar(authored: string, parts: Parts)
    ensures Parse(authored) == Some(parts)
            <==> exists form :: WellFormed(form) && Render(form) == authored && Meaning(form) == parts
  {
    hide Render, Meaning, FormOf, Component, Tag, RegistrySyntax, PortInRange, HostLike, IsSha256;
    RenderFormOf(authored);
    if form :| WellFormed(form) && Render(form) == authored && Meaning(form) == parts {
      FormOfRender(form);
    }
  }

  // ---------------------------------------------------------------- the canonical form

  /** A resolved image as it is pulled: registry, repository and digest. */
  function Canonical(parts: Parts, digest: string): string {
    parts.registry + "/" + parts.repository + "@" + digest
  }

  lemma DockerHubHasNoPort()
    ensures IndexOf("docker.io", ':') == None && HostName("docker.io")
  {
    hide IndexOf;
    var s := "docker.io";
    assert forall i :: 0 <= i < |s| ==> LowerAlphanumeric(s[i]) || s[i] == '.';
  }

  lemma LibraryIsComponent()
    ensures Component("library")
  {
    var s := "library";
    assert forall i :: 0 <= i < |s| ==> LowerAlphanumeric(s[i]);
  }

  lemma DockerHubIsRegistry()
    ensures HostLike("docker.io") && RegistrySyntax("docker.io") && PortInRange("docker.io") && Component("library")
  {
    hide IndexOf, HostName, Component;
    DockerHubHasNoPort();
    LibraryIsComponent();
    assert "docker.io"[6] == '.';
  }

  lemma FullPathFull(registry: string, path: seq<string>)
    requires path != []
    ensures FullPath(registry, FullPath(registry, path)) == FullPath(registry, path)
  {
  }

  /** Printing an accepted reference with any digest and reading it back keeps registry and repository, selects
      the digest, and has no tag. */
  lemma CanonicalFixedPoint(authored: string, parts: Parts, digest: string)
    requires Parse(authored) == Some(parts) && IsSha256(digest)
    ensures Parse(Canonical(parts, digest))
            == Some(Parts(Canonical(parts, digest), parts.registry, parts.repository, digest, None, Some(digest)))
  {
    hide Component, RegistrySyntax, PortInRange, HostLike, Tag, IsSha256, FormOf, Join, Render;
    var form := FormOf(authored);
    var full := FullPath(parts.registry, form.path);
    var canonical := Form(Some(parts.registry), full, None, Some(digest));
    DockerHubIsRegistry();
    assert WellFormed(canonical);
    FullPathFull(parts.registry, form.path);
    RenderCanonical(parts.registry, full, digest);
    FormOfRender(canonical);
  }

  lemma RenderCanonical(registry: string, path: seq<string>, digest: string)
    requires path != []
    ensures Render(Form(Some(registry), path, None, Some(digest))) == registry + "/" + Join(path, '/') + "@" + digest
  {
    assert ([registry] + path)[1..] == path;
  }

  // ---------------------------------------------------------------- what no reference contains

  predicate AllReference(s: string) {
    forall i :: 0 <= i < |s| ==> ReferenceChar(s[i])
  }

  /** A colon directly before a slash. */
  predicate ColonSlash(s: string) {
    exists i, j :: 0 <= i < |s| && 0 <= j < |s| && j == i + 1 && s[i] == ':' && s[j] == '/'
  }

  predicate SchemeAt(s: string, i: nat)
    requires i + 2 < |s|
  {
    s[i] == ':' && s[i + 1] == '/' && s[i + 2] == '/'
  }

  predicate HasScheme(s: string) {
    exists i :: 0 <= i < |s| - 2 && SchemeAt(s, i)
  }

  /** A part of a path or a host: reference characters, no slash, no colon at its end. */
  predicate PlainPart(s: string) {
    s != "" && AllReference(s) && '/' !in s && s[|s| - 1] != ':'
  }

  lemma ComponentPlain(s: string)
    requires Component(s)
    ensures PlainPart(s)
  {
  }

  lemma RegistryPlain(s: string)
    requires RegistrySyntax(s)
    ensures PlainPart(s)
  {
    hide IndexOf;
    match IndexOf(s, ':')
    case None =>
    case Some(i) =>
      assert s == s[..i] + [':'] + s[i + 1..];
      assert s[|s| - 1] == s[i + 1..][|s| - i - 2];
  }

  lemma NoColonSlashAcross(a: string, b: string)
    requires !ColonSlash(a) && !ColonSlash(b)
    requires a == "" || a[|a| - 1] != ':' || (b != "" && b[0] != '/')
    ensures !ColonSlash(a + b)
  {
  }

  lemma {:induction false} JoinPlain(parts: seq<string>)
    requires parts != [] && forall p :: p in parts ==> PlainPart(p)
    ensures AllReference(Join(parts, '/')) && !ColonSlash(Join(parts, '/'))
  {
    assert parts[0] in parts;
    if |parts| > 1 {
      assert forall p :: p in parts[1..] ==> p in parts;
      JoinPlain(parts[1..]);
      var rest := Join(parts[1..], '/');
      NoColonSlashAcross(['/'], rest);
      NoColonSlashAcross(parts[0], ['/'] + rest);
      assert Join(parts, '/') == parts[0] + (['/'] + rest);
    }
  }

  lemma SuffixPlain(form: Form)
    requires WellFormed(form)
    ensures AllReference(Suffix(':', form.tag) + Suffix('@', form.digest))
    ensures '/' !in Suffix(':', form.tag) + Suffix('@', form.digest)
  {
    hide Component, RegistrySyntax, PortInRange, HostLike;
    if form.tag.Some? { TagClean(form.tag.value, '/'); }
    if form.digest.Some? { DigestPlain(form.digest.value); }
  }

  lemma DigestPlain(s: string)
    requires IsSha256(s)
    ensures AllReference(s) && '/' !in s
  {
    assert forall i :: 0 <= i < 7 ==> s[i] == s[..7][i];
  }

  /** An accepted reference has no white space and no URL scheme: those two tests only choose the error. */
  lemma RenderPlain(form: Form)
    requires WellFormed(form)
    ensures AllReference(Render(form)) && !ColonSlash(Render(form)) && Render(form) != ""
  {
    hide Component, RegistrySyntax, PortInRange, HostLike, ColonSlash, Join, Tag, IsSha256, Suffix;
    var parts := Hosts(form) + form.path;
    forall p | p in parts
      ensures PlainPart(p)
    {
      if p in form.path { ComponentPlain(p); } else { RegistryPlain(p); }
    }
    JoinPlain(parts);
    JoinNonempty(parts);
    SuffixPlain(form);
    var suffix := Suffix(':', form.tag) + Suffix('@', form.digest);
    NoSlashNoColonSlash(Bare(form), suffix);
    assert Render(form) == Bare(form) + suffix;
  }

  lemma JoinNonempty(parts: seq<string>)
    requires parts != [] && PlainPart(parts[0])
    ensures Join(parts, '/') != ""
  {
  }

  lemma NoSlashNoColonSlash(a: string, b: string)
    requires !ColonSlash(a) && '/' !in b
    ensures !ColonSlash(a + b)
  {
    assert forall i :: |a| <= i < |a + b| ==> (a + b)[i] == b[i - |a|];
  }

  lemma SpacesRejected(authored: string)
    requires authored == "" || HasScheme(authored) || exists i :: 0 <= i < |authored| && IsSpace(authored[i])
    ensures Parse(authored) == None
  {
    hide Component, RegistrySyntax, PortInRange, HostLike, Tag, IsSha256, FormOf, Render;
    RenderFormOf(authored);
    if WellFormed(FormOf(authored)) {
      RenderPlain(FormOf(authored));
    }
  }

  // ---------------------------------------------------------------- the parser

  lemma TakenApart(authored: string)
    ensures var form := FormOf(authored);
            && form.digest == CutDigest(authored).1 && form.tag == CutTag(CutDigest(authored).0).1
            && (form.host, form.path) == CutHost(Split(CutTag(CutDigest(authored).0).0, '/'))
  {
    hide CutDigest, CutTag, CutHost, Split;
  }

  lemma BadSuffixRejected(authored: string)
    requires var form := FormOf(authored);
             (form.tag.Some? && !Tag(form.tag.value)) || (form.digest.Some? && !IsSha256(form.digest.value))
    ensures Parse(authored) == None
  {
    hide Component, RegistrySyntax, PortInRange, HostLike, Tag, IsSha256, FormOf;
  }

  /** With tag and digest accepted, registry and full path decide. */
  lemma NameDecides(authored: string)
    requires var form := FormOf(authored);
             (form.tag.Some? ==> Tag(form.tag.value)) && (form.digest.Some? ==> IsSha256(form.digest.value))
    requires var form := FormOf(authored); form.host.None? ==> |form.path| == 1 || !HostLike(form.path[0])
    requires var form := FormOf(authored); form.host.Some? ==> HostLike(form.host.value)
    ensures var form := FormOf(authored); var registry := Registry(form); var full := FullPath(registry, form.path);
            Parse(authored)
            == if RegistrySyntax(registry) && PortInRange(registry) && forall p :: p in full ==> Component(p)
               then Some(Meaning(form)) else None
  {
    hide Component, RegistrySyntax, PortInRange, HostLike, Tag, IsSha256, FormOf, Meaning;
    DockerHubIsRegistry();
    var form := FormOf(authored);
    var full := FullPath(Registry(form), form.path);
    forall p | p in form.path
      ensures p in full
    {
      var i :| 0 <= i < |form.path| && form.path[i] == p;
      assert full[i + |full| - |form.path|] == p;
    }
  }

  lemma MeaningOf(authored: string)
    ensures var form := FormOf(authored);
            var tag := if form.digest.Some? then form.tag else Some(form.tag.GetOr("latest"));
            Meaning(form) == Parts(authored, Registry(form), Join(FullPath(Registry(form), form.path), '/'),
                                   if form.digest.Some? then form.digest.value else tag.value, tag, form.digest)
  {
    hide FormOf, Render, Join, FullPath;
    RenderFormOf(authored);
  }

  /** The second half of the parser: the registry, the repository and Docker's defaults. */
  method ReadName(authored: string, name: string, selector: string, tag: Option<string>, digest: Option<string>)
    returns (parsed: Option<Parts>)
    requires var form := FormOf(authored);
             && (form.host, form.path) == CutHost(Split(name, '/')) && form.digest == digest
             && (form.tag.Some? ==> Tag(form.tag.value)) && (digest.Some? ==> IsSha256(digest.value))
             && tag == (if digest.Some? then form.tag else Some(form.tag.GetOr("latest")))
             && selector == if digest.Some? then digest.value else tag.value
    ensures parsed == Parse(authored)
  {
    hide IsSha256, Component, Tag, Split, Join, HostLike, RegistrySyntax, PortInRange, FormOf, Parse, Meaning;
    var components := Split(name, '/');
    NameDecides(authored);
    MeaningOf(authored);
    var registry, repositoryComponents := "docker.io", components;
    if |components| > 1 && HostLike(components[0]) {
      registry, repositoryComponents := components[0], components[1..];
    }
    if registry == "docker.io" && |repositoryComponents| == 1 {
      repositoryComponents := ["library"] + repositoryComponents;
    }
    if !RegistrySyntax(registry) || !PortInRange(registry) {
      return None;
    }
    if exists p :: p in repositoryComponents && !Component(p) {
      return None;
    }
    parsed := Some(Parts(authored, registry, Join(repositoryComponents, '/'), selector, tag, digest));
  }

  /** The parser as it is written: one reassigned name, early rejections, and Docker's defaults at the end. */
  method ParseImageReference(authored: string) returns (parsed: Option<Parts>)
    ensures parsed == Parse(authored)
  {
    hide IsSha256, Component, Tag, Split, Join, IndexOf, LastIndexOf, HostLike, IsSpace, HasScheme, RegistrySyntax,
         PortInRange, FormOf, Parse, Meaning;
    if authored == "" || (exists i :: 0 <= i < |authored| && IsSpace(authored[i])) || HasScheme(authored) {
      SpacesRejected(authored);
      return None;
    }
    TakenApart(authored);
    var at := IndexOf(authored, '@');
    var name := if at.Some? then authored[..at.value] else authored;
    var authoredTag: Option<string> := None;
    var lastSlash, lastColon := LastIndexOf(name, '/'), LastIndexOf(name, ':');
    if lastColon > lastSlash {
      authoredTag := Some(name[lastColon + 1..]);
      name := name[..lastColon];
      if !Tag(authoredTag.value) {
        BadSuffixRejected(authored);
        return None;
      }
    }
    var digest, tag, selector := None, authoredTag, "";
    if at.Some? {
      var digestPart := authored[at.value + 1..];
      if !IsSha256(digestPart) {
        BadSuffixRejected(authored);
        return None;
      }
      digest, selector := Some(digestPart), digestPart;
    } else {
      tag := Some(authoredTag.GetOr("latest"));
      selector := tag.value;
    }
    parsed := ReadName(authored, name, selector, tag, digest);
  }
}
