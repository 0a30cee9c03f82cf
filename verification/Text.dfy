/** Searching, splitting and joining strings, as Python's `find`, `rfind`, `split` and `join` do. */
module Text {
  import opened Results

  /** A POSIX path that starts at the root. */
  predicate Absolute(s: string) {
    s != "" && s[0] == '/'
  }

  /** The first place of a character. */
  function IndexOf(s: string, c: char): (i: Option<nat>)
    ensures i.Some? ==> i.value < |s| && s[i.value] == c && forall k :: 0 <= k < i.value ==> s[k] != c
    ensures i.None? ==> c !in s
  {
    if s == "" then None
    else if s[0] == c then Some(0)
    else
      var rest := IndexOf(s[1..], c);
      if rest.None? then None
      else
        assert forall k :: 1 <= k < |s| ==> s[k] == s[1..][k - 1];
        Some(rest.value + 1)
  }

  /** The last place of a character, minus one when there is none. */
  function LastIndexOf(s: string, c: char): (i: int)
    ensures -1 <= i < |s| && (i == -1 <==> c !in s)
    ensures 0 <= i ==> s[i] == c && forall k :: i < k < |s| ==> s[k] != c
  {
    if s == "" then -1
    else
      var last := |s| - 1;
      if s[last] == c then last
      else
        var before := LastIndexOf(s[..last], c);
        assert forall k :: 0 <= k < last ==> s[k] == s[..last][k];
        before
  }

  function Split(s: string, separator: char): (parts: seq<string>)
    ensures parts != []
  {
    if s == "" then [""]
    else
      var rest := Split(s[1..], separator);
      if s[0] == separator then [""] + rest else [[s[0]] + rest[0]] + rest[1..]
  }

  function Join(parts: seq<string>, separator: char): string
    requires parts != []
  {
    if |parts| == 1 then parts[0] else parts[0] + [separator] + Join(parts[1..], separator)
  }

  lemma {:induction false} SplitPartsClean(s: string, separator: char)
    ensures forall p :: p in Split(s, separator) ==> separator !in p
  {
    if s != "" {
      SplitPartsClean(s[1..], separator);
      var rest := Split(s[1..], separator);
      assert rest[0] in rest;
      assert forall p :: p in rest[1..] ==> p in rest;
    }
  }

  /** Joining what was split gives the string back. */
  lemma {:induction false} JoinSplit(s: string, separator: char)
    ensures Join(Split(s, separator), separator) == s
  {
    if s != "" {
      JoinSplit(s[1..], separator);
      var rest := Split(s[1..], separator);
      if s[0] == separator {
        assert ([""] + rest)[1..] == rest;
      } else {
        JoinHead(s[0], rest, separator);
      }
    }
  }

  lemma JoinHead(c: char, parts: seq<string>, separator: char)
    requires parts != []
    ensures Join([[c] + parts[0]] + parts[1..], separator) == [c] + Join(parts, separator)
  {
    var longer := [[c] + parts[0]] + parts[1..];
    assert longer[1..] == parts[1..];
  }

  lemma {:induction false} SplitClean(s: string, separator: char)
    requires separator !in s
    ensures Split(s, separator) == [s]
  {
    if s != "" {
      SplitClean(s[1..], separator);
      assert s == [s[0]] + s[1..];
    }
  }

  lemma {:induction false} SplitAt(head: string, tail: string, separator: char)
    requires separator !in head
    ensures Split(head + [separator] + tail, separator) == [head] + Split(tail, separator)
  {
    var s := head + [separator] + tail;
    if head == "" {
      assert s[1..] == tail;
    } else {
      SplitAt(head[1..], tail, separator);
      assert s[1..] == head[1..] + [separator] + tail;
      assert head == [head[0]] + head[1..];
    }
  }

  /** Splitting what was joined gives the parts back. */
  lemma {:induction false} SplitJoin(parts: seq<string>, separator: char)
    requires parts != [] && forall p :: p in parts ==> separator !in p
    ensures Split(Join(parts, separator), separator) == parts
  {
    if |parts| == 1 {
      SplitClean(parts[0], separator);
    } else {
      assert forall p :: p in parts[1..] ==> p in parts;
      SplitJoin(parts[1..], separator);
      SplitAt(parts[0], Join(parts[1..], separator), separator);
    }
  }

  lemma IndexOfAt(head: string, tail: string, c: char)
    requires c !in head
    ensures IndexOf(head + [c] + tail, c) == Some(|head|)
  {
    hide IndexOf;
    var s := head + [c] + tail;
    assert s[|head|] == c && forall k :: 0 <= k < |head| ==> s[k] == head[k];
  }

  lemma PastSeparator(head: string, tail: string, c: char, k: nat)
    requires |head| < k <= |head| + |tail|
    ensures (head + [c] + tail)[k] in tail
  {
    assert (head + [c] + tail)[k] == tail[k - |head| - 1];
  }

  lemma LastIndexOfAt(head: string, tail: string, c: char)
    requires c !in tail
    ensures LastIndexOf(head + [c] + tail, c) == |head|
  {
    hide LastIndexOf;
    var s := head + [c] + tail;
    assert s[|head|] == c;
    var i := LastIndexOf(s, c);
    if |head| < i {
      PastSeparator(head, tail, c, i);
    }
  }

  /** A last place lies where the last occurrence is known to lie. */
  lemma LastIndexOfHead(head: string, tail: string, c: char)
    requires c !in tail
    ensures LastIndexOf(head + tail, c) < |head|
  {
    hide LastIndexOf;
    var s := head + tail;
    assert forall k :: |head| <= k < |s| ==> s[k] == tail[k - |head|];
  }
}
