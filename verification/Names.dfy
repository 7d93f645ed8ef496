/** Catalog names, namespaces and the identifiers derived from them.

    Lengths are byte lengths in the code; strings here stand for byte strings, which for
    catalog names (ASCII) is the same. */
module Names {
  import opened Json
  import opened Text

  predicate NameChar(c: char) {
    'a' <= c <= 'z' || 'A' <= c <= 'Z' || '0' <= c <= '9' || c == '_' || c == '-' || c == '.'
  }

  predicate ValidName(s: string) {
    s != "" && forall c :: c in s ==> NameChar(c)
  }

  predicate ValidNamespace(parts: seq<string>) {
    parts != [] && forall p :: p in parts ==> ValidName(p)
  }

  function NewNamespace(parts: seq<string>): Option<seq<string>> {
    if ValidNamespace(parts) then Some(parts) else None
  }

  // ---- the storage key ----

  function Framed(part: string): string {
    ":" + Decimal(|part|) + ":" + part
  }

  function KeyBody(parts: seq<string>): string {
    if parts == [] then "" else Framed(parts[0]) + KeyBody(parts[1..])
  }

  function StorageKey(parts: seq<string>): string {
    "v1" + KeyBody(parts)
  }

  method BuildStorageKey(parts: seq<string>) returns (key: string)
    ensures key == StorageKey(parts)
  {
    key := "v1";
    assert parts[0..] == parts;
    for i := 0 to |parts|
      invariant key + KeyBody(parts[i..]) == StorageKey(parts)
    {
      assert parts[i..][0] == parts[i] && parts[i..][1..] == parts[i + 1..];
      assert key + (Framed(parts[i]) + KeyBody(parts[i + 1..])) == key + Framed(parts[i]) + KeyBody(parts[i + 1..]);
      key := key + ":" + Decimal(|parts[i]|) + ":" + parts[i];
    }
    assert parts[|parts|..] == [] && key + "" == key;
  }

  /** Reads length-prefixed parts back; lengths must be written as `Decimal` writes them. */
  function DecodeBody(s: string): Option<seq<string>> {
    if s == "" then Some([])
    else
      var colon := 1 + IndexOf(s[1..], ':');
      if s[0] != ':' || colon == |s| then None
      else
        var n :- Digits(s[1..colon]);
        var start := colon + 1;
        if s[1..colon] != Decimal(n) || start + n > |s| then None
        else
          var rest :- DecodeBody(s[start + n..]);
          Some([s[start..start + n]] + rest)
  }

  function DecodeKey(key: string): Option<seq<string>> {
    if "v1" <= key then DecodeBody(key[2..]) else None
  }

  lemma {:induction false} DecodeEncoded(parts: seq<string>)
    ensures DecodeBody(KeyBody(parts)) == Some(parts)
    decreases |parts|
  {
    hide Digits, Decimal, IndexOf;
    if parts != [] {
      var part, rest := parts[0], KeyBody(parts[1..]);
      var s, digits := KeyBody(parts), Decimal(|part|);
      DecimalRead(|part|);
      assert s[1..] == digits + [':'] + (part + rest);
      IndexOfSeparator(digits, ':', part + rest);
      var start := |digits| + 2;
      assert s[1..start - 1] == digits;
      assert s[start..start + |part|] == part && s[start + |part|..] == rest;
      DecodeEncoded(parts[1..]);
      assert [part] + parts[1..] == parts;
    }
  }

  lemma {:induction false} IndexFound(s: string, c: char)
    requires IndexOf(s, c) < |s|
    ensures s[IndexOf(s, c)] == c
  {
    if s[0] != c {
      IndexFound(s[1..], c);
    }
  }

  lemma {:induction false} EncodeDecoded(s: string)
    requires DecodeBody(s).Some?
    ensures KeyBody(DecodeBody(s).value) == s
    decreases |s|
  {
    hide Digits, Decimal, IndexOf, KeyBody;
    if s == "" {
      EncodeNothing();
    } else {
      var colon := 1 + IndexOf(s[1..], ':');
      IndexFound(s[1..], ':');
      var n, start := Digits(s[1..colon]).value, colon + 1;
      EncodeDecoded(s[start + n..]);
      var part := s[start..start + n];
      EncodeFirst(part, DecodeBody(s[start + n..]).value);
      assert s == ":" + s[1..colon] + ":" + part + s[start + n..];
    }
  }

  lemma EncodeNothing()
    ensures KeyBody([]) == ""
  {
  }

  lemma EncodeFirst(part: string, rest: seq<string>)
    ensures KeyBody([part] + rest) == ":" + Decimal(|part|) + ":" + part + KeyBody(rest)
  {
    hide Decimal;
    assert ([part] + rest)[1..] == rest;
  }

  /** The storage key is a code: a string decodes to a namespace exactly when it is its key. */
  lemma StorageKeyDecodes(key: string, parts: seq<string>)
    ensures DecodeKey(key) == Some(parts) <==> key == StorageKey(parts)
  {
    if key == StorageKey(parts) {
      assert key[2..] == KeyBody(parts);
      DecodeEncoded(parts);
    }
    if DecodeKey(key) == Some(parts) {
      EncodeDecoded(key[2..]);
      assert key == key[..2] + key[2..];
    }
  }

  /** Different namespaces never share a storage key. */
  lemma StorageKeyInjective(a: seq<string>, b: seq<string>)
    requires StorageKey(a) == StorageKey(b)
    ensures a == b
  {
    StorageKeyDecodes(StorageKey(a), a);
    StorageKeyDecodes(StorageKey(b), b);
  }

  // ---- the readable path ----

  function Path(parts: seq<string>): string {
    Join(parts, ".")
  }

  function Parts(pieces: seq<string>): seq<string> {
    if pieces == [] then []
    else
      var part := Trim(pieces[0]);
      (if part == "" then [] else [part]) + Parts(pieces[1..])
  }

  function ParseNamespace(value: string): Option<seq<string>> {
    NewNamespace(Parts(Split(value, '.')))
  }

  predicate DotFree(parts: seq<string>) {
    forall p :: p in parts ==> '.' !in p
  }

  lemma {:induction false} SplitIsDotFree(s: string)
    ensures DotFree(Split(s, '.'))
  {
    if s != "" {
      SplitIsDotFree(s[1..]);
      var rest := Split(s[1..], '.');
      assert rest[0] in rest;
    }
  }

  lemma {:induction false} TrimMembers(s: string)
    ensures forall c :: c in Trim(s) ==> c in s
    ensures (forall c :: c in s ==> !IsWhitespace(c)) ==> Trim(s) == s
    decreases |s|
  {
    if s != "" && IsWhitespace(s[0]) {
      TrimMembers(s[1..]);
    } else if s != "" && IsWhitespace(s[|s| - 1]) {
      TrimMembers(s[..|s| - 1]);
    }
  }

  lemma {:induction false} PartsOf(pieces: seq<string>)
    ensures DotFree(pieces) ==> DotFree(Parts(pieces))
    ensures (forall p :: p in pieces ==> ValidName(p)) ==> Parts(pieces) == pieces
    decreases |pieces|
  {
    if pieces != [] {
      TrimMembers(pieces[0]);
      PartsOf(pieces[1..]);
      assert pieces == [pieces[0]] + pieces[1..];
      assert ValidName(pieces[0]) ==> forall c :: c in pieces[0] ==> !IsWhitespace(c);
      assert pieces[0] in pieces;
    }
  }

  /** The readable path can be parsed back exactly when no component contains a dot. */
  lemma PathRoundTrip(parts: seq<string>)
    requires ValidNamespace(parts)
    ensures ParseNamespace(Path(parts)) == Some(parts) <==> DotFree(parts)
  {
    SplitIsDotFree(Path(parts));
    PartsOf(Split(Path(parts), '.'));
    if DotFree(parts) {
      SplitJoined(parts, '.');
    }
  }

  // ---- stable ids ----

  function StableTableId(warehouse: string, namespace: seq<string>, name: string): string {
    "lakecat:table:" + warehouse + ":" + Path(namespace) + ":" + name
  }

  lemma {:induction false} PathHasNo(parts: seq<string>, c: char)
    requires (forall p :: p in parts ==> ValidName(p)) && !NameChar(c)
    ensures c !in Path(parts)
    decreases |parts|
  {
    if |parts| == 1 {
      assert ValidName(parts[0]);
    } else if |parts| > 1 {
      PathHasNo(parts[1..], c);
      assert Path(parts) == parts[0] + "." + Path(parts[1..]);
      assert ValidName(parts[0]);
    }
  }

  /** A stable id determines the warehouse, the namespace path and the table name, and nothing more:
      namespaces with one path share their tables' stable ids. */
  lemma StableIdDetermines(w: string, ns: seq<string>, name: string, w': string, ns': seq<string>, name': string)
    requires ValidName(w) && ValidNamespace(ns) && ValidName(name)
    requires ValidName(w') && ValidNamespace(ns') && ValidName(name')
    ensures StableTableId(w, ns, name) == StableTableId(w', ns', name')
       <==> w == w' && Path(ns) == Path(ns') && name == name'
  {
    if StableTableId(w, ns, name) == StableTableId(w', ns', name') {
      var tail, tail' := Path(ns) + ":" + name, Path(ns') + ":" + name';
      assert StableTableId(w, ns, name) == "lakecat:table:" + (w + [':'] + tail);
      assert StableTableId(w', ns', name') == "lakecat:table:" + (w' + [':'] + tail');
      assert w + [':'] + tail == StableTableId(w, ns, name)[14..];
      assert w' + [':'] + tail' == StableTableId(w', ns', name')[14..];
      PathHasNo(ns, ':');
      PathHasNo(ns', ':');
      HeadsEnd(w, tail, w', tail', ':');
      HeadsEnd(Path(ns), name, Path(ns'), name', ':');
    }
  }

  /** Two namespaces that only their storage keys tell apart. */
  lemma PathsCollide()
    ensures ValidNamespace(["a.b"]) && ValidNamespace(["a", "b"]) && Path(["a.b"]) == Path(["a", "b"])
    ensures StorageKey(["a.b"]) != StorageKey(["a", "b"])
    ensures ParseNamespace(Path(["a.b"])) == Some(["a", "b"])
  {
    var dotted, parted := ["a.b"], ["a", "b"];
    assert parted[1..] == ["b"];
    assert Path(parted) == "a.b" == Path(dotted);
    hide StorageKey, KeyBody, ParseNamespace;
    if StorageKey(dotted) == StorageKey(parted) {
      StorageKeyInjective(dotted, parted);
    }
    PathRoundTrip(parted);
  }

  // ---- domain-separated digests ----

  /** What a domain-separated digest hashes: the domain, a NUL byte, the evidence. */
  function Framing(domain: seq<nat>, evidence: seq<nat>): seq<nat> {
    domain + [0] + evidence
  }

  /** No evidence in one domain can be mistaken for evidence in another. */
  lemma FramingInjective(d: seq<nat>, x: seq<nat>, e: seq<nat>, y: seq<nat>)
    requires 0 !in d && 0 !in e
    ensures Framing(d, x) == Framing(e, y) <==> d == e && x == y
  {
    if Framing(d, x) == Framing(e, y) {
      HeadsEnd(d, x, e, y, 0);
    }
  }
}
