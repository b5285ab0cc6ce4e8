/** Decoding mount paths and choosing the mount a process belongs to. */
module CgroupMounts {
  import opened Common
  import opened Utf8

  const MAX_METADATA_BYTES: nat := 524288

  /** Whether the text exceeds the limit when encoded; reading stops at the first
    * character that does. */
  method InputTooLarge(raw: string) returns (tooLarge: bool)
    ensures tooLarge <==> |Encode(raw)| > MAX_METADATA_BYTES
  {
    var size := 0;
    ghost var rest := raw;
    for i := 0 to |raw|
      invariant rest == raw[i..] && size + |Encode(rest)| == |Encode(raw)| && size <= MAX_METADATA_BYTES
    {
      var n := raw[i] as int;
      var width := if n <= 0x7f then 1 else if n <= 0x7ff then 2 else if n <= 0xffff then 3 else 4;
      assert rest[0] == raw[i] && |EncodeChar(raw[i])| == width;
      size := size + width;
      rest := rest[1..];
      if size > MAX_METADATA_BYTES {
        return true;
      }
    }
    tooLarge := false;
  }

  // ---------- octal escapes ----------

  /** The characters the kernel writes as a backslash and three octal digits. */
  predicate Escaped(c: char) {
    c == ' ' || c == '\t' || c == '\n' || c == '\\'
  }

  function Code(c: char): string
    requires Escaped(c)
    ensures |Code(c)| == 3
  {
    if c == ' ' then "040" else if c == '\t' then "011" else if c == '\n' then "012" else "134"
  }

  function Meaning(code: string): Option<char> {
    if code == "040" then Some(' ')
    else if code == "011" then Some('\t')
    else if code == "012" then Some('\n')
    else if code == "134" then Some('\\')
    else None
  }

  function Escape(path: string): string {
    if path == [] then []
    else (if Escaped(path[0]) then ['\\'] + Code(path[0]) else [path[0]]) + Escape(path[1..])
  }

  /** None if some backslash does not start one of the four codes. */
  function Decode(text: string): Option<string> {
    if text == [] then Some([])
    else if text[0] != '\\' then Prefixed(text[0], Decode(text[1..]))
    else if |text| < 4 || Meaning(text[1..4]).None? then None
    else Prefixed(Meaning(text[1..4]).value, Decode(text[4..]))
  }

  function Prefixed(c: char, r: Option<string>): Option<string> {
    match r
    case Some(s) => Some([c] + s)
    case None => None
  }

  lemma CodeMeans(c: char, code: string)
    requires Escaped(c) && |code| == 3
    ensures Meaning(code) == Some(c) <==> code == Code(c)
  {
    assert code == [code[0], code[1], code[2]];
  }

  /** Every path survives being escaped and decoded. */
  lemma {:induction false} DecodeEscaped(path: string)
    ensures Decode(Escape(path)) == Some(path)
  {
    if path != [] {
      var text, rest := Escape(path), Escape(path[1..]);
      DecodeEscaped(path[1..]);
      assert path == [path[0]] + path[1..];
      if Escaped(path[0]) {
        assert text[1..4] == Code(path[0]) && text[4..] == rest;
        CodeMeans(path[0], text[1..4]);
      } else {
        assert text[1..] == rest;
      }
    }
  }

  predicate NoBlank(text: string) {
    forall i | 0 <= i < |text| :: text[i] != ' ' && text[i] != '\t' && text[i] != '\n'
  }

  lemma PlainEscaped(text: string, path: string)
    requires text != [] && text[0] != '\\' && NoBlank(text) && Decode(text) == Some(path)
    ensures path != [] && Decode(text[1..]) == Some(path[1..])
    ensures Escape(path[1..]) == text[1..] ==> Escape(path) == text
  {
    assert path[0] == text[0] && text == [text[0]] + text[1..];
  }

  lemma CodeEscaped(text: string, path: string)
    requires text != [] && text[0] == '\\' && Decode(text) == Some(path)
    ensures path != [] && |text| >= 4 && Decode(text[4..]) == Some(path[1..])
    ensures Escape(path[1..]) == text[4..] ==> Escape(path) == text
  {
    CodeMeans(path[0], text[1..4]);
    assert text == ['\\'] + text[1..4] + text[4..];
  }

  /** A field that decodes and holds no raw blank is the escaped form of what it
    * decodes to, so no two such fields name the same path. */
  lemma {:induction false} DecodedIsEscaped(text: string, path: string)
    requires Decode(text) == Some(path) && NoBlank(text)
    ensures Escape(path) == text
  {
    if text != [] {
      if text[0] != '\\' {
        PlainEscaped(text, path);
        DecodedIsEscaped(text[1..], path[1..]);
      } else {
        CodeEscaped(text, path);
        DecodedIsEscaped(text[4..], path[1..]);
      }
    }
  }

  // ---------- path components ----------

  function Slash(s: string): (i: nat)
    ensures i <= |s| && (forall k | 0 <= k < i :: s[k] != '/') && (i < |s| ==> s[i] == '/')
  {
    if s == [] || s[0] == '/' then 0 else 1 + Slash(s[1..])
  }

  function Split(s: string): (r: seq<string>)
    ensures r != []
    decreases |s|
  {
    var i := Slash(s);
    if i == |s| then [s] else [s[..i]] + Split(s[i + 1..])
  }

  function Join(parts: seq<string>): string {
    if parts == [] then [] else if |parts| == 1 then parts[0] else parts[0] + ['/'] + Join(parts[1..])
  }

  predicate PartOk(part: string) {
    part != "" && part != "." && part != ".."
  }

  /** The components of an absolute path without empty or dot components. */
  function Components(path: string): Option<seq<string>> {
    if path == [] || path[0] != '/' || '\0' in path then None
    else if path == "/" then Some([])
    else
      var parts := Split(path[1..]);
      if forall i | 0 <= i < |parts| :: PartOk(parts[i]) then Some(parts) else None
  }

  predicate NoSlash(part: string) {
    forall k | 0 <= k < |part| :: part[k] != '/'
  }

  lemma SplitAt(s: string, i: nat, c: char)
    requires i < |s| && s[i] == c
    ensures s == s[..i] + [c] + s[i + 1..]
  {
  }

  lemma NothingBeforeSlash(s: string, i: nat)
    requires i == Slash(s)
    ensures NoSlash(s[..i])
  {
  }

  lemma JoinFirst(first: string, rest: seq<string>)
    requires rest != []
    ensures Join([first] + rest) == first + ['/'] + Join(rest)
  {
    assert ([first] + rest)[1..] == rest;
  }

  lemma {:induction false} JoinSplit(s: string)
    ensures Join(Split(s)) == s && forall i | 0 <= i < |Split(s)| :: NoSlash(Split(s)[i])
    decreases |s|
  {
    var i := Slash(s);
    NothingBeforeSlash(s, i);
    if i < |s| {
      SplitAt(s, i, '/');
      JoinSplit(s[i + 1..]);
      JoinFirst(s[..i], Split(s[i + 1..]));
    } else {
      assert s[..i] == s;
    }
  }

  lemma {:induction false} SlashAt(part: string, rest: string)
    requires NoSlash(part) && (rest == [] || rest[0] == '/')
    ensures Slash(part + rest) == |part|
  {
    if part == [] {
      assert part + rest == rest;
    } else {
      assert part[0] != '/' && (part + rest)[1..] == part[1..] + rest;
      SlashAt(part[1..], rest);
    }
  }

  lemma {:induction false} SplitJoin(parts: seq<string>)
    requires parts != [] && forall i | 0 <= i < |parts| :: NoSlash(parts[i])
    ensures Split(Join(parts)) == parts
    decreases |parts|
  {
    if |parts| == 1 {
      SlashAt(parts[0], []);
      assert parts[0] + [] == parts[0];
    } else {
      var rest := ['/'] + Join(parts[1..]);
      SplitJoin(parts[1..]);
      SlashAt(parts[0], rest);
      assert Join(parts) == parts[0] + rest;
      assert Join(parts)[|parts[0]| + 1..] == Join(parts[1..]);
    }
  }

  /** A component by its characters: not empty, no dot, not two dots, no slash. */
  predicate ProperPart(part: string) {
    part != "" && part != "." && part != ".." && NoSlash(part)
  }

  predicate AllProper(parts: seq<string>) {
    forall i | 0 <= i < |parts| :: ProperPart(parts[i])
  }

  predicate Spells(path: string, parts: seq<string>) {
    parts != [] && AllProper(parts) && path == "/" + Join(parts) && '\0' !in path
  }

  lemma PathOfParts(path: string, parts: seq<string>)
    requires parts != [] && AllProper(parts) && path == "/" + Join(parts) && '\0' !in path
    ensures Components(path) == Some(parts)
  {
    SplitJoin(parts);
    assert path[1..] == Join(parts) && path[0] == '/';
    assert path != "/" by {
      assert |Join(parts)| >= |parts[0]| && ProperPart(parts[0]);
    }
  }

  lemma PartsOfPath(path: string, parts: seq<string>)
    requires Components(path) == Some(parts) && path != "/"
    ensures parts != [] && AllProper(parts) && path == "/" + Join(parts) && '\0' !in path
  {
    JoinSplit(path[1..]);
    assert path == [path[0]] + path[1..];
  }

  /** The root has no components.  Any other path has the given ones exactly if it is
    * a slash before each of them, all are proper, and there is no null character. */
  lemma ComponentsExactly(path: string, parts: seq<string>)
    ensures Components(path) == Some(parts) <==> if path == "/" then parts == [] else Spells(path, parts)
  {
    if path != "/" {
      if Components(path) == Some(parts) {
        PartsOfPath(path, parts);
      } else if Spells(path, parts) {
        PathOfParts(path, parts);
      }
    }
  }

  /** A path with components is determined by them. */
  lemma ComponentsAreFaithful(a: string, b: string)
    requires Components(a).Some? && Components(a) == Components(b)
    ensures a == b
  {
    assert a == [a[0]] + a[1..] && b == [b[0]] + b[1..];
    JoinSplit(a[1..]);
    JoinSplit(b[1..]);
  }

  // ---------- the deepest mount ----------

  datatype Mount = Mount(fileSystem: string, root: string, id: nat)

  predicate Covers(m: Mount, member: seq<string>) {
    m.fileSystem == "cgroup2" && Components(m.root).Some? && Components(m.root).value <= member
  }

  /** A cgroup2 mount covers a member exactly if the components of its root, none for
    * the root of the tree, are the first ones of the member. */
  lemma CoversExactly(m: Mount, member: seq<string>)
    ensures Covers(m, member) <==>
            m.fileSystem == "cgroup2" && exists parts :: RootParts(m.root, parts) && parts <= member
    ensures forall parts | RootParts(m.root, parts) :: Depth(m) == |parts|
  {
    forall parts ensures RootParts(m.root, parts) <==> Components(m.root) == Some(parts) {
      ComponentsExactly(m.root, parts);
    }
  }

  ghost predicate RootParts(path: string, parts: seq<string>) {
    if path == "/" then parts == [] else Spells(path, parts)
  }

  function Depth(m: Mount): nat {
    match Components(m.root)
    case Some(parts) => |parts|
    case None => 0
  }

  /** Mount `i` covers the member and every other mount that does is less deep. */
  ghost predicate Deepest(mounts: seq<Mount>, member: seq<string>, i: nat) {
    && i < |mounts| && Covers(mounts[i], member)
    && forall j | 0 <= j < |mounts| && j != i && Covers(mounts[j], member) :: Depth(mounts[j]) < Depth(mounts[i])
  }

  /** The covering mounts among the first `n`, in order. */
  predicate Candidates(mounts: seq<Mount>, member: seq<string>, n: nat, r: seq<nat>)
    requires n <= |mounts|
  {
    && (forall k | 0 <= k < |r| :: r[k] < n && Covers(mounts[r[k]], member))
    && (forall i | 0 <= i < n && Covers(mounts[i], member) :: i in r)
    && Ascending(r)
  }

  function BestDepth(mounts: seq<Mount>, candidates: seq<nat>): (d: nat)
    requires candidates != [] && forall k | 0 <= k < |candidates| :: candidates[k] < |mounts|
    ensures exists k | 0 <= k < |candidates| :: Depth(mounts[candidates[k]]) == d
    ensures forall k | 0 <= k < |candidates| :: Depth(mounts[candidates[k]]) <= d
  {
    if |candidates| == 1 then Depth(mounts[candidates[0]])
    else
      var rest := BestDepth(mounts, candidates[1..]);
      assert forall k | 1 <= k < |candidates| :: candidates[k] == candidates[1..][k - 1];
      var own := Depth(mounts[candidates[0]]);
      if own > rest then own else rest
  }

  function AtDepth(mounts: seq<Mount>, candidates: seq<nat>, d: nat): (r: seq<nat>)
    requires forall k | 0 <= k < |candidates| :: candidates[k] < |mounts|
    ensures forall i :: i in r <==> i in candidates && Depth(mounts[i]) == d
    ensures |r| <= |candidates|
  {
    if candidates == [] then []
    else
      var rest := AtDepth(mounts, candidates[1..], d);
      if Depth(mounts[candidates[0]]) == d then [candidates[0]] + rest else rest
  }

  predicate Ascending(s: seq<nat>) {
    forall k, l | 0 <= k < l < |s| :: s[k] < s[l]
  }

  lemma AscendingCons(x: nat, s: seq<nat>)
    requires Ascending(s) && forall k | 0 <= k < |s| :: x < s[k]
    ensures Ascending([x] + s)
  {
  }

  lemma AllSame(s: seq<nat>, i: nat)
    requires Ascending(s) && i in s && forall x | x in s :: x == i
    ensures s == [i]
  {
    assert |s| >= 2 ==> s[0] < s[1];
    assert forall k | 0 <= k < |s| :: s[k] in s;
  }

  /** Distinct candidates stay distinct. */
  lemma {:induction false} AtDepthAscends(mounts: seq<Mount>, candidates: seq<nat>, d: nat)
    requires forall k | 0 <= k < |candidates| :: candidates[k] < |mounts|
    requires Ascending(candidates)
    ensures Ascending(AtDepth(mounts, candidates, d))
  {
    if candidates != [] {
      var later := candidates[1..];
      AtDepthAscends(mounts, later, d);
      var rest := AtDepth(mounts, later, d);
      forall k | 0 <= k < |rest| ensures candidates[0] < rest[k] {
        assert rest[k] in later;
        var l :| 0 <= l < |later| && later[l] == rest[k];
        assert candidates[l + 1] == later[l];
      }
      AscendingCons(candidates[0], rest);
    }
  }

  /** The one deepest mount whose root is a prefix, component by component, of the
    * member's path; none if there is no such mount or a tie for the deepest. */
  method SelectMount(mounts: seq<Mount>, parsed: bool, path: string) returns (r: Option<Mount>)
    ensures r.Some? <==> parsed && Components(path).Some? && exists i: nat :: Deepest(mounts, Components(path).value, i)
    ensures r.Some? ==> exists i: nat :: Deepest(mounts, Components(path).value, i) && mounts[i] == r.value
  {
    var parts := Components(path);
    if !parsed || parts.None? {
      return None;
    }
    var i := DeepestOf(mounts, parts.value);
    r := if i.Some? then Some(mounts[i.value]) else None;
  }

  method DeepestOf(mounts: seq<Mount>, member: seq<string>) returns (r: Option<nat>)
    ensures forall i: nat :: Deepest(mounts, member, i) <==> r == Some(i)
  {
    var candidates := Covering(mounts, member);
    r := Choose(mounts, candidates);
    ChosenIsDeepest(mounts, member, candidates);
  }

  method Covering(mounts: seq<Mount>, member: seq<string>) returns (candidates: seq<nat>)
    ensures Candidates(mounts, member, |mounts|, candidates)
  {
    candidates := [];
    for k := 0 to |mounts|
      invariant Candidates(mounts, member, k, candidates)
    {
      if Covers(mounts[k], member) {
        candidates := candidates + [k];
      }
    }
  }

  /** The only candidate of the greatest depth. */
  function Choose(mounts: seq<Mount>, candidates: seq<nat>): Option<nat>
    requires forall k | 0 <= k < |candidates| :: candidates[k] < |mounts|
  {
    if candidates == [] then None else Unique(AtDepth(mounts, candidates, BestDepth(mounts, candidates)))
  }

  lemma ChosenIsDeepest(mounts: seq<Mount>, member: seq<string>, candidates: seq<nat>)
    requires Candidates(mounts, member, |mounts|, candidates)
    ensures forall i: nat :: Deepest(mounts, member, i) <==> Choose(mounts, candidates) == Some(i)
  {
    if candidates != [] {
      UniqueIsDeepest(mounts, member, candidates, AtDepth(mounts, candidates, BestDepth(mounts, candidates)));
    }
  }

  function Unique(s: seq<nat>): Option<nat> {
    if |s| == 1 then Some(s[0]) else None
  }

  lemma UniqueIsDeepest(mounts: seq<Mount>, member: seq<string>, candidates: seq<nat>, best: seq<nat>)
    requires candidates != [] && Candidates(mounts, member, |mounts|, candidates)
    requires best == AtDepth(mounts, candidates, BestDepth(mounts, candidates))
    ensures forall i: nat :: Deepest(mounts, member, i) <==> Unique(best) == Some(i)
  {
    BestIsDeepest(mounts, member, candidates, best);
    assert |best| == 1 ==> best == [best[0]];
  }

  /** The candidates of the best depth are one mount exactly if it is the deepest. */
  lemma BestIsDeepest(mounts: seq<Mount>, member: seq<string>, candidates: seq<nat>, best: seq<nat>)
    requires candidates != [] && Candidates(mounts, member, |mounts|, candidates)
    requires best == AtDepth(mounts, candidates, BestDepth(mounts, candidates))
    ensures forall i: nat :: Deepest(mounts, member, i) <==> best == [i]
  {
    AtDepthAscends(mounts, candidates, BestDepth(mounts, candidates));
    forall i: nat ensures Deepest(mounts, member, i) <==> best == [i] {
      if best == [i] {
        OnlyBestIsDeepest(mounts, member, candidates, best, i);
      }
      if Deepest(mounts, member, i) {
        DeepestIsOnlyBest(mounts, member, candidates, best, i);
      }
    }
  }

  lemma OnlyBestIsDeepest(mounts: seq<Mount>, member: seq<string>, candidates: seq<nat>, best: seq<nat>, i: nat)
    requires candidates != [] && Candidates(mounts, member, |mounts|, candidates)
    requires best == AtDepth(mounts, candidates, BestDepth(mounts, candidates)) && best == [i]
    ensures Deepest(mounts, member, i)
  {
    var d := BestDepth(mounts, candidates);
    assert i in best;
    forall j | 0 <= j < |mounts| && j != i && Covers(mounts[j], member) ensures Depth(mounts[j]) < d {
      assert j in candidates && j !in best;
    }
  }

  lemma DeepestIsOnlyBest(mounts: seq<Mount>, member: seq<string>, candidates: seq<nat>, best: seq<nat>, i: nat)
    requires candidates != [] && Candidates(mounts, member, |mounts|, candidates)
    requires best == AtDepth(mounts, candidates, BestDepth(mounts, candidates)) && Deepest(mounts, member, i)
    requires Ascending(best)
    ensures best == [i]
  {
    var d := BestDepth(mounts, candidates);
    var k :| 0 <= k < |candidates| && Depth(mounts[candidates[k]]) == d;
    var deep := candidates[k];
    assert i in candidates && Covers(mounts[deep], member) && deep in best;
    assert Depth(mounts[i]) <= d;
    forall x | x in best ensures x == i {
      assert x in candidates && Covers(mounts[x], member) && Depth(mounts[x]) == d;
    }
    AllSame(best, i);
  }
}
