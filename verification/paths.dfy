/** The POSIX path operations the parser applies to file names and links:
    `str.rfind`, `os.path.basename`, `os.path.dirname`, `os.path.splitext`
    and `str.rsplit('/', 1)`. */
module Paths {
  import opened Outcomes

  /** `s.rfind(c)`: index of the last occurrence of `c`, or -1. */
  function RFind(s: string, c: char): (k: int)
    ensures -1 <= k < |s|
    decreases |s|
  {
    if s == [] then -1
    else if s[|s| - 1] == c then |s| - 1
    else RFind(s[..|s| - 1], c)
  }

  /** The index found holds `c`, and no `c` comes after it. */
  lemma {:induction false} RFindSpec(s: string, c: char)
    ensures var k := RFind(s, c);
      && (k >= 0 ==> s[k] == c)
      && (forall i :: k < i < |s| ==> s[i] != c)
    decreases |s|
  {
    if s != [] && s[|s| - 1] != c {
      var t := s[..|s| - 1];
      RFindSpec(t, c);
      assert forall i :: 0 <= i < |t| ==> t[i] == s[i];
    }
  }

  /** Appending text without `c` does not move the last `c`. */
  lemma {:induction false} RFindSkip(a: string, b: string, c: char)
    requires c !in b
    ensures RFind(a + b, c) == RFind(a, c)
    decreases |b|
  {
    if b != [] {
      var b' := b[..|b| - 1];
      assert (a + b)[..|a + b| - 1] == a + b';
      assert b[|b| - 1] in b;
      RFindSkip(a, b', c);
    } else {
      assert a + b == a;
    }
  }

  /** The slice of `a + b` before `|a|` is `a`, and the one from `|a|` is `b`. */
  lemma CutConcat(a: string, b: string)
    ensures (a + b)[..|a|] == a && (a + b)[|a|..] == b
  {
  }

  /** Cutting `p` after its last `c` does not move the last `c`. */
  lemma RFindPrefix(p: string, k: nat, c: char)
    requires RFind(p, c) < k <= |p|
    ensures RFind(p[..k], c) == RFind(p, c)
  {
    RFindSpec(p, c);
    var tail := p[k..];
    assert forall i :: 0 <= i < |tail| ==> tail[i] == p[k + i];
    assert p == p[..k] + tail;
    RFindSkip(p[..k], tail, c);
  }

  /** `os.path.basename(p)`: the text after the last '/'. */
  function Basename(p: string): string {
    p[RFind(p, '/') + 1..]
  }

  /** The basename holds no '/', ends `p`, and follows a '/' unless it is all
      of `p`. */
  lemma BasenameSpec(p: string)
    ensures var r := Basename(p);
      && '/' !in r
      && |r| <= |p| && p[|p| - |r|..] == r
      && (|r| < |p| ==> p[|p| - |r| - 1] == '/')
  {
    RFindSpec(p, '/');
    TailWithout(p, RFind(p, '/') + 1, '/');
  }

  /** A tail of `p` whose every position avoids `c` does not contain `c`. */
  lemma TailWithout(p: string, j: nat, c: char)
    requires j <= |p|
    requires forall i :: j <= i < |p| ==> p[i] != c
    ensures c !in p[j..]
  {
    forall i | 0 <= i < |p| - j ensures p[j..][i] != c {
      assert p[j..][i] == p[j + i];
    }
  }

  /** A string without '/' is its own basename. */
  lemma BasenameNoSlash(p: string)
    requires '/' !in p
    ensures Basename(p) == p
  {
    RFindSpec(p, '/');
  }

  /** `s.rstrip('/')`. */
  function TrimTrailingSlashes(s: string): string
    decreases |s|
  {
    if s != [] && s[|s| - 1] == '/' then TrimTrailingSlashes(s[..|s| - 1]) else s
  }

  /** Stripping trailing slashes leaves a prefix that does not end in '/',
      and removes nothing but slashes. */
  lemma {:induction false} TrimTrailingSlashesSpec(s: string)
    ensures var r := TrimTrailingSlashes(s);
      && |r| <= |s| && s[..|r|] == r
      && (r == [] || r[|r| - 1] != '/')
      && (forall i :: |r| <= i < |s| ==> s[i] == '/')
    decreases |s|
  {
    if s != [] && s[|s| - 1] == '/' {
      var t := s[..|s| - 1];
      TrimTrailingSlashesSpec(t);
      var r := TrimTrailingSlashes(t);
      assert forall i :: 0 <= i < |t| ==> t[i] == s[i];
      assert s[..|r|] == t[..|r|];
    }
  }

  predicate AllSlashes(s: string) {
    forall i :: 0 <= i < |s| ==> s[i] == '/'
  }

  /** `os.path.dirname(p)`: everything up to the last '/', without trailing
      slashes unless the head is nothing but slashes (the root). */
  function Dirname(p: string): string {
    DirOfHead(p[..RFind(p, '/') + 1])
  }

  /** The directory named by `head`, the text up to and including the last
      '/': trailing slashes go unless nothing else is left. */
  function DirOfHead(head: string): string {
    if head != [] && !AllSlashes(head) then TrimTrailingSlashes(head) else head
  }

  /** The directory is a prefix of the head followed by nothing but slashes;
      it is empty only for an empty head, and ends in '/' only when it is an
      all-slash head kept whole. */
  lemma DirOfHeadSpec(head: string)
    ensures var d := DirOfHead(head);
      && |d| <= |head| && head[..|d|] == d
      && (forall i :: |d| <= i < |head| ==> head[i] == '/')
      && (d == [] <==> head == [])
      && (d != [] && d[|d| - 1] == '/' ==> AllSlashes(d) && d == head)
  {
    TrimTrailingSlashesSpec(head);
    if head != [] && !AllSlashes(head) {
      var d := TrimTrailingSlashes(head);
      var j :| 0 <= j < |head| && head[j] != '/';
      assert j < |d|;
    }
  }

  /** The directory is a prefix of the path, and the basename follows it
      after nothing but slashes. It is empty exactly when the path has no
      '/', and it keeps a trailing '/' only when it is the whole run of
      slashes before the basename (the root, `//` and so on). */
  lemma DirnameSpec(p: string)
    ensures var d := Dirname(p);
      && |d| + |Basename(p)| <= |p| && p[..|d|] == d
      && (forall i :: |d| <= i < |p| - |Basename(p)| ==> p[i] == '/')
      && (d == [] <==> '/' !in p)
      && (d != [] && d[|d| - 1] == '/' ==> AllSlashes(d) && |d| + |Basename(p)| == |p|)
  {
    var k := RFind(p, '/') + 1;
    var head := p[..k];
    var d := DirOfHead(head);
    DirOfHeadSpec(head);
    assert |Basename(p)| == |p| - k;
    assert p[..|d|] == head[..|d|];
    assert forall i :: |d| <= i < k ==> p[i] == head[i];
    assert head == [] <==> '/' !in p by {
      RFindSpec(p, '/');
      if k > 0 {
        assert p[k - 1] == '/';
      }
    }
  }

  /** `dir + '/' + name` has `name` as its basename. */
  lemma BasenameOfJoin(dir: string, name: string)
    requires '/' !in name
    ensures Basename(dir + "/" + name) == name
  {
    var slashed := dir + "/";
    assert RFind(slashed, '/') == |dir|;
    RFindSkip(slashed, name, '/');
    CutConcat(slashed, name);
  }

  /** A path has an empty directory exactly when it has no '/'. */
  lemma DirnameEmpty(p: string)
    ensures Dirname(p) == [] <==> '/' !in p
  {
    DirnameSpec(p);
  }

  /** `dir + '/' + name` lies in `dir` when `dir` does not end in '/', and
      in the root when `dir` is empty. */
  lemma DirnameOfJoin(dir: string, name: string)
    requires '/' !in name
    requires dir == [] || dir[|dir| - 1] != '/'
    ensures Dirname(dir + "/" + name) == if dir == [] then "/" else dir
  {
    var slashed := dir + "/";
    assert RFind(slashed, '/') == |dir|;
    RFindSkip(slashed, name, '/');
    CutConcat(slashed, name);
    var head := (dir + "/" + name)[..RFind(dir + "/" + name, '/') + 1];
    assert head == slashed;
    if dir == [] {
      assert AllSlashes(slashed);
    } else {
      assert slashed[|dir| - 1] != '/';
      assert !AllSlashes(slashed);
      assert slashed[..|slashed| - 1] == dir;
      assert TrimTrailingSlashes(slashed) == TrimTrailingSlashes(dir);
    }
  }

  /** Some character of `s` is not a '.'. */
  predicate HasNonDot(s: string)
    decreases |s|
  {
    s != [] && (s[0] != '.' || HasNonDot(s[1..]))
  }

  /** A possible extension: empty, or a '.' followed by neither '.' nor '/'. */
  predicate IsExtension(e: string) {
    e == [] || (e[0] == '.' && forall i :: 0 < i < |e| ==> e[i] != '.' && e[i] != '/')
  }

  /** `os.path.splitext(p)`: split off the extension, which runs from the last
      '.' of the final path component, provided that component has something
      other than dots before it (so '.bashrc' has no extension). */
  function SplitExt(p: string): (string, string) {
    var sepIndex := RFind(p, '/');
    var dotIndex := RFind(p, '.');
    if dotIndex > sepIndex && HasNonDot(p[sepIndex + 1..dotIndex]) then
      (p[..dotIndex], p[dotIndex..])
    else (p, [])
  }

  /** The two parts rebuild the path; the second is an extension; when there
      is one, the final component before it has a character other than '.'. */
  lemma SplitExtSpec(p: string)
    ensures var r := SplitExt(p);
      && r.0 + r.1 == p
      && IsExtension(r.1)
      && (r.1 != [] ==> HasNonDot(Basename(r.0)))
  {
    if RFind(p, '.') > RFind(p, '/') && HasNonDot(p[RFind(p, '/') + 1..RFind(p, '.')]) {
      SplitExtFacts(p);
    } else {
      assert p + [] == p;
    }
  }

  lemma SplitExtFacts(p: string)
    requires RFind(p, '.') > RFind(p, '/')
    requires HasNonDot(p[RFind(p, '/') + 1..RFind(p, '.')])
    ensures p[..RFind(p, '.')] + p[RFind(p, '.')..] == p
    ensures IsExtension(p[RFind(p, '.')..])
    ensures HasNonDot(Basename(p[..RFind(p, '.')]))
  {
    var sepIndex := RFind(p, '/');
    var dotIndex := RFind(p, '.');
    LastDotTail(p);
    BasenameOfCut(p, dotIndex);
    assert p[..dotIndex] + p[dotIndex..] == p;
  }

  /** After the last '.' that follows the last '/', the rest is an extension. */
  lemma LastDotTail(p: string)
    requires RFind(p, '.') > RFind(p, '/')
    ensures IsExtension(p[RFind(p, '.')..])
  {
    RFindSpec(p, '.');
    RFindSpec(p, '/');
    TailIsExtension(p, RFind(p, '.'), RFind(p, '/'));
  }

  /** Cutting a path after its last '/' leaves the part of the basename before
      the cut as the new basename. */
  lemma BasenameOfCut(p: string, k: nat)
    requires RFind(p, '/') < k <= |p|
    ensures Basename(p[..k]) == p[RFind(p, '/') + 1..k]
  {
    var s := RFind(p, '/');
    var q := p[..k];
    RFindPrefix(p, k, '/');
    assert RFind(q, '/') == s;
    assert Basename(q) == q[s + 1..];
    SliceOfPrefix(p, s + 1, k);
  }

  /** From a '.' with neither '.' nor '/' after it, the rest is an extension. */
  lemma TailIsExtension(p: string, d: int, s: int)
    requires -1 <= s < d < |p| && p[d] == '.'
    requires forall i :: d < i < |p| ==> p[i] != '.'
    requires forall i :: s < i < |p| ==> p[i] != '/'
    ensures IsExtension(p[d..])
  {
    var e := p[d..];
    assert forall i :: 0 < i < |e| ==> e[i] == p[d + i];
  }

  lemma SliceOfPrefix(p: string, i: nat, k: nat)
    requires i <= k <= |p|
    ensures p[..k][i..] == p[i..k]
  {
  }

  /** A file name with no '.' has no extension. */
  lemma SplitExtNoDot(p: string)
    requires '.' !in p
    ensures SplitExt(p) == (p, [])
  {
    RFindSpec(p, '.');
  }

  /** An extension is split off at the given dot when the stem's last
      component holds something other than dots. */
  lemma SplitExtOf(stem: string, ext: string)
    requires '.' !in ext && '/' !in ext
    requires HasNonDot(Basename(stem))
    ensures SplitExt(stem + "." + ext) == (stem, "." + ext)
  {
    var p := stem + "." + ext;
    var dotted := stem + ".";
    assert p == dotted + ext;
    RFindSkip(dotted, ext, '.');
    assert RFind(dotted, '.') == |stem|;
    assert p == stem + ("." + ext);
    assert '/' !in "." + ext;
    RFindSkip(stem, "." + ext, '/');
    CutConcat(stem, "." + ext);
    var sepIndex := RFind(stem, '/');
    assert p[sepIndex + 1..|stem|] == stem[sepIndex + 1..];
  }

  /** `os.path.splitext(os.path.basename(p))[0]`: the file name without its
      directory and extension. */
  function Stem(p: string): string {
    SplitExt(Basename(p)).0
  }

  /** The stem holds no '/'. */
  lemma StemNoSlash(p: string)
    ensures '/' !in Stem(p)
  {
    BasenameSpec(p);
    SplitExtSpec(Basename(p));
  }

  datatype LinkError = NoSlash

  /** `link.rsplit('/', 1)[1]`: the text after the last '/'; a link without
      '/' makes the index fail. */
  function AfterLastSlash(link: string): (r: Result<string, LinkError>)
    ensures r.Err? <==> '/' !in link
    ensures r.Ok? ==> r.value == Basename(link) && |r.value| < |link|
  {
    RFindSpec(link, '/');
    var k := RFind(link, '/');
    if k < 0 then Err(NoSlash) else Ok(link[k + 1..])
  }
}
