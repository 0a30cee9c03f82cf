/** The syntax of references as words and joints, and what their parts mean. */
module ReferenceGrammar {
  import opened Results
  import opened Text
  import opened ImageReference

  // ---------------------------------------------------------------- path components

  ghost predicate Word(s: string) {
    s != "" && forall i :: 0 <= i < |s| ==> 'a' <= s[i] <= 'z' || '0' <= s[i] <= '9'
  }

  /** What may stand between two words: a dot, one or two underscores, or dashes. */
  ghost predicate Joint(s: string) {
    s == "." || s == "_" || s == "__" || (s != "" && forall i :: 0 <= i < |s| ==> s[i] == '-')
  }

  /** Words with joints between them, one after the other. */
  ghost predicate Chained(s: string, words: seq<string>, joints: seq<string>)
    decreases |words|
  {
    && |words| == |joints| + 1 && Word(words[0])
    && if joints == [] then s == words[0]
       else
         && Joint(joints[0]) && words[0] + joints[0] <= s
         && Chained(s[|words[0] + joints[0]|..], words[1..], joints[1..])
  }

  /** How many characters at the front are letters or digits, or are not. */
  ghost function Front(s: string, letters: bool): (n: nat)
    ensures n <= |s|
    ensures forall i :: 0 <= i < n ==> LowerAlphanumeric(s[i]) == letters
    ensures n < |s| ==> LowerAlphanumeric(s[n]) != letters
  {
    if s == "" || LowerAlphanumeric(s[0]) != letters then 0 else 1 + Front(s[1..], letters)
  }

  /** Between two words of a component stands a joint. */
  lemma SeparatorsAreJoint(s: string, first: nat, last: nat)
    requires Component(s) && first < last < |s|
    requires forall i :: first <= i < last ==> !LowerAlphanumeric(s[i])
    ensures Joint(s[first..last])
  {
    var joint := s[first..last];
    forall i | 0 <= i < |joint|
      ensures joint[i] == joint[0] && Separator(joint[i])
      ensures |joint| > 1 ==> joint[0] != '.'
    {
      assert joint[i] == s[first + i];
      SameSeparators(s, first, first + i);
      if |joint| > 1 { SameSeparators(s, first, first + 1); }
    }
    if |joint| == 1 {
      assert joint == [joint[0]];
    } else if |joint| == 2 {
      assert joint == [joint[0], joint[0]];
    } else {
      assert !ThreeUnderscores(s, first);
      assert joint[1] == s[first + 1] && joint[2] == s[first + 2];
    }
  }

  lemma {:induction false} SameSeparators(s: string, first: nat, last: nat)
    requires Component(s) && first <= last < |s| && forall i :: first <= i <= last ==> !LowerAlphanumeric(s[i])
    ensures s[first] == s[last] && (first < last ==> s[first] != '.')
    decreases last
  {
    if first < last {
      SameSeparators(s, first, last - 1);
      assert Separator(s[last - 1]) && Separator(s[last]);
    }
  }

  /** What follows a word and a joint is again a component. */
  lemma TailIsComponent(s: string, n: nat)
    requires Component(s) && n < |s| && LowerAlphanumeric(s[n])
    ensures Component(s[n..])
  {
    var tail := s[n..];
    forall i | 0 <= i < |tail| ensures tail[i] == s[n + i] {
    }
    forall i | 0 <= i < |tail| - 2 ensures !ThreeUnderscores(tail, i) {
      assert !ThreeUnderscores(s, n + i);
    }
    forall i, j | 0 <= i < |tail| && 0 <= j < |tail| && j == i + 1 && Separator(tail[i]) && Separator(tail[j])
      ensures tail[i] == tail[j] != '.'
    {
      assert tail[i] == s[n + i] && tail[j] == s[n + j];
    }
  }

  lemma {:induction false} ComponentChains(s: string) returns (words: seq<string>, joints: seq<string>)
    requires Component(s)
    ensures Chained(s, words, joints)
    decreases |s|
  {
    var n := Front(s, true);
    if n == |s| {
      words, joints := [s], [];
    } else {
      var m := SecondWord(s, n);
      SeparatorsAreJoint(s, n, m);
      TailIsComponent(s, m);
      var more, rest := ComponentChains(s[m..]);
      words, joints := [s[..n]] + more, [s[n..m]] + rest;
      hide Component, Word, Joint;
      assert s[..n] + s[n..m] == s[..m] && |s[..n] + s[n..m]| == m;
      assert words[1..] == more && joints[1..] == rest;
    }
  }

  /** Where the next word starts after the first one. */
  lemma SecondWord(s: string, n: nat) returns (m: nat)
    requires Component(s) && n == Front(s, true) < |s|
    ensures 0 < n < m < |s| && Word(s[..n]) && LowerAlphanumeric(s[m])
    ensures forall i :: n <= i < m ==> !LowerAlphanumeric(s[i])
  {
    var tail := s[n..];
    var k := Front(tail, false);
    assert tail[|tail| - 1] == s[|s| - 1];
    m := n + k;
    assert tail[0] == s[n];
    forall i | n <= i < m ensures !LowerAlphanumeric(s[i]) {
      assert s[i] == tail[i - n];
    }
    if k < |tail| { assert tail[k] == s[m]; }
  }

  /** A word and a joint before a component make a component. */
  lemma WordJointComponent(word: string, joint: string, tail: string)
    requires Word(word) && Joint(joint) && Component(tail)
    ensures Component(word + joint + tail)
  {
    var s := word + joint + tail;
    forall i | 0 <= i < |s|
      ensures LowerAlphanumeric(s[i]) || Separator(s[i])
      ensures i < |word| ==> LowerAlphanumeric(s[i]) && s[i] == word[i]
      ensures |word| <= i < |word| + |joint| ==> Separator(s[i]) && s[i] == joint[i - |word|]
      ensures |word| + |joint| <= i ==> s[i] == tail[i - |word| - |joint|]
    {
    }
    forall i, j | 0 <= i < |s| && 0 <= j < |s| && j == i + 1 && Separator(s[i]) && Separator(s[j])
      ensures s[i] == s[j] != '.'
    {
      if j < |word| + |joint| {
        assert joint[i - |word|] == s[i] && joint[j - |word|] == s[j];
      } else if |word| + |joint| <= i {
        assert tail[i - |word| - |joint|] == s[i] && tail[j - |word| - |joint|] == s[j];
      }
    }
    forall i | 0 <= i < |s| - 2 ensures !ThreeUnderscores(s, i) {
      if |word| + |joint| <= i {
        assert !ThreeUnderscores(tail, i - |word| - |joint|);
      } else if i + 2 < |word| + |joint| && |word| <= i {
        assert joint[i - |word|] == s[i] && joint[i + 2 - |word|] == s[i + 2];
      }
    }
  }

  lemma {:induction false} ChainIsComponent(s: string, words: seq<string>, joints: seq<string>)
    requires Chained(s, words, joints)
    ensures Component(s)
    decreases |words|
  {
    if joints != [] {
      var n := |words[0] + joints[0]|;
      ChainIsComponent(s[n..], words[1..], joints[1..]);
      WordJointComponent(words[0], joints[0], s[n..]);
      assert s == words[0] + joints[0] + s[n..];
    }
  }

  /** A path component is exactly words with joints between them. */
  lemma ComponentIsChain(s: string)
    ensures Component(s) <==> exists words, joints :: Chained(s, words, joints)
  {
    hide Component;
    if Component(s) { var words, joints := ComponentChains(s); }
    if words, joints :| Chained(s, words, joints) { ChainIsComponent(s, words, joints); }
  }

  // ---------------------------------------------------------------- registries and ports

  ghost predicate HostText(s: string) {
    && s != "" && Word([s[0]]) && Word([s[|s| - 1]])
    && forall i :: 0 <= i < |s| ==> 'a' <= s[i] <= 'z' || '0' <= s[i] <= '9' || s[i] == '.' || s[i] == '-'
  }

  ghost predicate PortText(s: string) {
    1 <= |s| <= 5 && forall i :: 0 <= i < |s| ==> '0' <= s[i] <= '9'
  }

  /** A registry is a host, or a host, a colon and one to five digits. */
  lemma RegistryMeans(s: string)
    ensures RegistrySyntax(s)
            <==> HostText(s) || exists host, port :: HostText(host) && PortText(port) && s == host + ":" + port
  {
    hide IndexOf, HostText, PortText;
    forall text ensures HostName(text) <==> HostText(text) { HostMeans(text); }
    forall text ensures Port(text) <==> PortText(text) { PortMeans(text); }
    hide HostName, Port;
    match IndexOf(s, ':')
    case None =>
      assert ':' !in s;
    case Some(i) =>
      assert s == s[..i] + ":" + s[i + 1..];
      NoColonInHost(s);
    if host, port :| HostText(host) && PortText(port) && s == host + ":" + port {
      NoColonInHost(host);
      IndexOfAt(host, port, ':');
      assert s == host + [':'] + port;
      assert s[..|host|] == host && s[|host| + 1..] == port;
    }
  }

  lemma HostMeans(s: string)
    ensures HostName(s) <==> HostText(s)
  {
    if s != "" { assert Word([s[0]]) <==> LowerAlphanumeric(s[0]) by { OneLetter(s[0]); } }
    if s != "" { OneLetter(s[|s| - 1]); }
  }

  lemma OneLetter(c: char)
    ensures Word([c]) <==> LowerAlphanumeric(c)
  {
    assert [c][0] == c;
  }

  lemma PortMeans(s: string)
    ensures Port(s) <==> PortText(s)
  {
  }

  lemma NoColonInHost(s: string)
    ensures HostText(s) ==> ':' !in s
  {
  }

  /** Digits as a decimal number: of one digit, and of one more digit at the end. */
  lemma DecimalMeans(s: string, c: char)
    requires Digits(s) && '0' <= c <= '9'
    ensures Digits(s + [c]) && Decimal(s + [c]) == 10 * Decimal(s) + (c as int - '0' as int)
    ensures Decimal("") == 0
  {
    assert (s + [c])[..|s|] == s && (s + [c])[|s|] == c;
  }

  // ---------------------------------------------------------------- what the parts mean

  /** The registry is the host that was written, or Docker's; a single component there lies below `library`; a digest
      selects when there is one, and otherwise the tag, `latest` when none was written. */
  lemma MeaningIs(form: Form)
    requires form.path != []
    ensures var parts := Meaning(form);
            && parts.authored == Render(form)
            && parts.registry == (if form.host.Some? then form.host.value else "docker.io")
            && parts.repository
               == (if |form.path| == 1 && (form.host.None? || form.host.value == "docker.io")
                   then "library/" + form.path[0] else Join(form.path, '/'))
            && parts.digest == form.digest
            && parts.tag == (if form.tag.Some? || form.digest.Some? then form.tag else Some("latest"))
            && parts.selector == (if form.digest.Some? then form.digest.value
                                  else if form.tag.Some? then form.tag.value else "latest")
  {
    if |form.path| == 1 && (form.host.None? || form.host.value == "docker.io") {
      var full := ["library"] + form.path;
      assert FullPath(Registry(form), form.path) == full && full[1..] == form.path;
      assert Join(full, '/') == "library" + ['/'] + Join(form.path, '/');
      assert "library" + ['/'] + form.path[0] == "library/" + form.path[0];
    }
  }

  /** A reference is written host, path, tag and digest, in this order, each with its own mark. */
  lemma RenderIs(form: Form)
    requires form.path != []
    ensures Render(form)
            == (if form.host.Some? then form.host.value + "/" else "") + Join(form.path, '/')
               + (if form.tag.Some? then ":" + form.tag.value else "")
               + (if form.digest.Some? then "@" + form.digest.value else "")
  {
    if form.host.Some? {
      assert ([form.host.value] + form.path)[1..] == form.path;
      assert Bare(form) == form.host.value + ['/'] + Join(form.path, '/');
    } else {
      assert [] + form.path == form.path;
    }
  }

  lemma {:induction false} JoinIs(parts: seq<string>, separator: char, first: string)
    ensures Join([first], separator) == first
    ensures parts != [] ==> Join([first] + parts, separator) == first + [separator] + Join(parts, separator)
  {
    assert ([first] + parts)[1..] == parts;
  }
}
