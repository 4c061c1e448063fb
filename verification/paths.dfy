/** Path arithmetic of the client (FTP.py): the trailing-slash-insensitive
    comparison, the rule that updates the cached working directory after a
    successful change, the split of a path into the components that
    `SetDirectory` walks, and the split of a name into directory part and
    last part used by `FileExists` and `PathExists`. It also holds the
    resolution rule of the modelled server, so that the client's rule can be
    compared with it. */
module Paths {
  import opened Text

  // ---------------------------------------------------------------------
  // ComparePaths (FTP.py:211-217)

  /** Appends "/" when the path is empty or does not already end in "/". */
  function WithSlash(p: string): string
  {
    if |p| == 0 || p[|p| - 1] != '/' then p + "/" else p
  }

  /** `ComparePaths(p1, p2)` */
  predicate ComparePaths(p1: string, p2: string)
  {
    WithSlash(p1) == WithSlash(p2)
  }

  /** Removes at most one trailing "/". */
  function DropOneSlash(p: string): (r: string)
    ensures r + "/" == WithSlash(p)
  {
    if |p| > 0 && p[|p| - 1] == '/' then p[..|p| - 1] else p
  }

  /** Two paths compare equal exactly when they agree once one trailing "/" is removed from each. */
  lemma ComparePathsIffSameWithoutOneSlash(p: string, q: string)
    ensures ComparePaths(p, q) <==> DropOneSlash(p) == DropOneSlash(q)
  {
    if ComparePaths(p, q) {
      var a, b := DropOneSlash(p), DropOneSlash(q);
      assert a + "/" == b + "/";
      assert |a| == |b|;
      assert a == (a + "/")[..|a|] == (b + "/")[..|b|] == b;
    }
  }

  /** ComparePaths is an equivalence relation. */
  lemma ComparePathsEquivalence(p: string, q: string, r: string)
    ensures ComparePaths(p, p)
    ensures ComparePaths(p, q) ==> ComparePaths(q, p)
    ensures ComparePaths(p, q) && ComparePaths(q, r) ==> ComparePaths(p, r)
  {
  }

  /** One trailing "/" makes no difference, and the empty path equals the root. */
  lemma ComparePathsTrailingSlash(p: string)
    requires |p| == 0 || p[|p| - 1] != '/'
    ensures ComparePaths(p, p + "/")
    ensures ComparePaths("", "/")
  {
    assert (p + "/")[|p + "/"| - 1] == '/';
  }

  /** A doubled trailing "/" is not normalised: "a/" and "a//" differ. */
  lemma ComparePathsDoubleSlashDiffers()
    ensures !ComparePaths("a/", "a//")
  {
    assert WithSlash("a/") == "a/";
    assert WithSlash("a//") == "a//";
    assert |"a/"| != |"a//"|;
  }

  // ---------------------------------------------------------------------
  // Canonical absolute paths: the form the server reports

  /** A directory name as it appears between separators of a canonical path:
      not empty, no "/", not a dot entry, no surrounding whitespace. */
  predicate Name(c: string)
  {
    c != "" && '/' !in c && c != "." && c != ".."
    && !IsSpace(c[0]) && !IsSpace(c[|c| - 1])
  }

  predicate AllNames(segs: seq<string>)
  {
    forall i :: 0 <= i < |segs| ==> Name(segs[i])
  }

  /** The absolute path whose segments are `segs`. */
  function Canon(segs: seq<string>): string
  {
    "/" + Join(segs, '/')
  }

  /** The segments of an absolute path. */
  function Segs(p: string): seq<string>
  {
    if |p| <= 1 then [] else Split(p[1..], '/')
  }

  /** "/" or "/n1/.../nk" with every ni a Name: no empty segment, no trailing "/". */
  predicate Canonical(p: string)
  {
    p == "/" || (|p| >= 2 && p[0] == '/' && AllNames(Split(p[1..], '/')))
  }

  lemma CanonicalSegs(p: string)
    requires Canonical(p)
    ensures AllNames(Segs(p)) && Canon(Segs(p)) == p
  {
    if p != "/" {
      JoinSplit(p[1..], '/');
      assert p == "/" + p[1..];
    }
  }

  lemma SegsCanon(segs: seq<string>)
    requires AllNames(segs)
    ensures Canonical(Canon(segs)) && Segs(Canon(segs)) == segs
  {
    var p := Canon(segs);
    if segs != [] {
      SplitJoin(segs, '/');
      assert p[1..] == Join(segs, '/');
      assert |Join(segs, '/')| >= 1 by {
        if |segs| > 1 {
          assert Join(segs, '/') == segs[0] + ['/'] + Join(segs[1..], '/');
        }
      }
    }
  }

  /** The last character of a canonical path is "/" only at the root. */
  lemma CanonicalEnd(p: string)
    requires Canonical(p) && p != "/"
    ensures p[|p| - 1] != '/'
  {
    var parts := Split(p[1..], '/');
    JoinSplit(p[1..], '/');
    assert parts == DropLast(parts) + [Last(parts)];
    if |parts| > 1 {
      JoinSnoc(DropLast(parts), Last(parts), '/');
    }
    assert Name(Last(parts));
  }

  /** On canonical paths ComparePaths is plain equality. */
  lemma ComparePathsCanonical(p: string, q: string)
    requires Canonical(p) && Canonical(q)
    ensures ComparePaths(p, q) <==> p == q
  {
    ComparePathsIffSameWithoutOneSlash(p, q);
    if p != "/" { CanonicalEnd(p); }
    if q != "/" { CanonicalEnd(q); }
  }

  // ---------------------------------------------------------------------
  // os.path.split, head part (used by UpdateCurpath for "..")

  /** `p.rfind('/') + 1`: the length of the prefix up to and including the last "/". */
  function LastSlashEnd(p: string): (k: nat)
    ensures k <= |p|
    ensures k > 0 ==> p[k - 1] == '/'
    ensures '/' !in p[k..]
    decreases |p|
  {
    if p == [] then 0
    else if p[|p| - 1] == '/' then |p|
    else
      var k := LastSlashEnd(p[..|p| - 1]);
      assert p[k..] == p[..|p| - 1][k..] + [p[|p| - 1]];
      k
  }

  predicate AllSlashes(p: string)
  {
    forall i :: 0 <= i < |p| ==> p[i] == '/'
  }

  /** `p.rstrip('/')` */
  function RStripSlashes(p: string): string
    decreases |p|
  {
    if p != [] && p[|p| - 1] == '/' then RStripSlashes(p[..|p| - 1]) else p
  }

  /** The head returned by `os.path.split(p)` (POSIX): everything up to the
      last "/", with trailing slashes removed unless it is all slashes. */
  function PosixHead(p: string): string
  {
    var head := p[..LastSlashEnd(p)];
    if head != [] && !AllSlashes(head) then RStripSlashes(head) else head
  }

  lemma LastSlashEndAfter(a: string, b: string)
    requires '/' !in b
    ensures LastSlashEnd(a + "/" + b) == |a| + 1
    decreases |b|
  {
    var p := a + "/" + b;
    if b != [] {
      assert p[..|p| - 1] == a + "/" + b[..|b| - 1];
      assert p[|p| - 1] == b[|b| - 1];
      LastSlashEndAfter(a, b[..|b| - 1]);
    }
  }

  lemma JoinEnds(d: seq<string>)
    requires |d| >= 1 && d[0] != "" && Last(d) != ""
    ensures |Join(d, '/')| >= 1
    ensures Join(d, '/')[0] == d[0][0]
    ensures Join(d, '/')[|Join(d, '/')| - 1] == Last(d)[|Last(d)| - 1]
  {
    if |d| > 1 {
      assert Join(d, '/') == d[0] + ['/'] + Join(d[1..], '/');
      assert d == DropLast(d) + [Last(d)];
      JoinSnoc(DropLast(d), Last(d), '/');
    }
  }

  /** A canonical path with at least one segment is not the root. */
  lemma CanonBelowRoot(segs: seq<string>)
    requires AllNames(segs) && |segs| >= 1
    ensures |Canon(segs)| >= 2 && Canon(segs)[1] != '/' && Canon(segs)[|Canon(segs)| - 1] != '/'
  {
    JoinEnds(segs);
  }

  lemma RStripOneSlash(x: string)
    requires x != [] && x[|x| - 1] != '/'
    ensures RStripSlashes(x + "/") == x
  {
    assert (x + "/")[..|x|] == x;
  }

  lemma PosixHeadOfTop(n: string)
    requires Name(n)
    ensures PosixHead(Canon([n])) == "/"
  {
    assert Canon([n]) == "" + "/" + n;
    LastSlashEndAfter("", n);
    assert Canon([n])[..1] == "/";
    assert AllSlashes("/");
  }

  lemma PosixHeadOfDeeper(d: seq<string>, n: string)
    requires AllNames(d) && |d| >= 1 && Name(n)
    ensures PosixHead(Canon(d + [n])) == Canon(d)
  {
    JoinSnoc(d, n, '/');
    var c := Canon(d);
    assert Canon(d + [n]) == c + "/" + n;
    LastSlashEndAfter(c, n);
    var head := c + "/";
    assert Canon(d + [n])[..|c| + 1] == head;
    CanonBelowRoot(d);
    assert head[1] != '/';
    assert !AllSlashes(head);
    RStripOneSlash(c);
  }

  /** The parent, as `os.path.split` computes it, of a canonical path below the root. */
  lemma PosixHeadOfCanon(segs: seq<string>)
    requires AllNames(segs) && |segs| >= 1
    ensures PosixHead(Canon(segs)) == Canon(DropLast(segs))
  {
    var d := DropLast(segs);
    assert segs == d + [Last(segs)];
    if |segs| == 1 {
      PosixHeadOfTop(segs[0]);
      assert segs == [segs[0]];
    } else {
      PosixHeadOfDeeper(d, Last(segs));
    }
  }

  // ---------------------------------------------------------------------
  // UpdateCurpath (FTP.py:73-87)

  /** The cached path after a successful change to `newdir` from `cur`. */
  function NewCurpath(cur: string, newdir: string): string
    requires newdir != ""
  {
    if newdir[0] == '/' then newdir
    else if newdir == ".." then (if cur != "/" then PosixHead(cur) else cur)
    else if cur == "/" then cur + newdir
    else cur + "/" + newdir
  }

  /** An absolute target replaces the cache outright. */
  lemma NewCurpathAbsolute(cur: string, newdir: string)
    requires newdir != "" && newdir[0] == '/'
    ensures NewCurpath(cur, newdir) == newdir
  {
  }

  /** Any other target except ".." is appended as one more segment, with exactly
      one "/" between the old path and the target. */
  lemma NewCurpathAppends(cur: string, newdir: string)
    requires newdir != "" && newdir[0] != '/' && newdir != ".."
    requires cur == "/" || (|cur| > 0 && cur[|cur| - 1] != '/')
    ensures var r := NewCurpath(cur, newdir);
      |r| > |newdir| && r[|r| - |newdir|..] == newdir && r[|r| - |newdir| - 1] == '/'
      && (|r| - |newdir| - 1 == 0 || r[|r| - |newdir| - 2] != '/')
      && r[..|r| - |newdir|] == (if cur == "/" then cur else cur + "/")
  {
  }

  /** ".." stays at the root, and elsewhere drops the last segment: the parent
      of "/a" is "/". */
  lemma NewCurpathParent(segs: seq<string>)
    requires AllNames(segs)
    ensures NewCurpath(Canon(segs), "..") == Canon(if segs == [] then [] else DropLast(segs))
  {
    if segs != [] {
      PosixHeadOfCanon(segs);
      SegsCanon(segs);
      assert Canon(segs) != "/" by { assert |Canon(segs)| >= 2 by {
        if |segs| > 1 { assert Join(segs, '/') == segs[0] + ['/'] + Join(segs[1..], '/'); }
      } }
    }
  }

  /** Only one level of ".." is understood: "../.." is appended like a name. */
  lemma NewCurpathDoubleParent()
    ensures NewCurpath("/a/b", "../..") == "/a/b/../.."
  {
  }

  // ---------------------------------------------------------------------
  // The modelled server's resolution of a directory argument

  /** Applies the pieces of a target to a list of segments the way an FTP
      server does: empty pieces and "." stay, ".." goes up (not above the
      root), anything else goes down. */
  function Normalize(segs: seq<string>, pieces: seq<string>): seq<string>
    decreases |pieces|
  {
    if pieces == [] then segs
    else
      var p := pieces[0];
      var next :=
        if p == "" || p == "." then segs
        else if p == ".." then (if segs == [] then [] else DropLast(segs))
        else segs + [p];
      Normalize(next, pieces[1..])
  }

  /** The segments of the path the server reaches from `cwd` with the argument `t`:
      an absolute argument starts from the root. */
  function Target(cwd: string, t: string): seq<string>
  {
    var base := if t != "" && t[0] == '/' then [] else Segs(cwd);
    Normalize(base, Split(t, '/'))
  }

  /** The absolute path the server reaches from `cwd` with the argument `t`. */
  function Resolve(cwd: string, t: string): string
  {
    Canon(Target(cwd, t))
  }

  lemma {:induction false} NormalizeNames(segs: seq<string>, names: seq<string>)
    requires AllNames(names)
    ensures Normalize(segs, names) == segs + names
    decreases |names|
  {
    if names != [] {
      NormalizeNames(segs + [names[0]], names[1..]);
      assert segs + [names[0]] + names[1..] == segs + names;
    }
  }

  // ---------------------------------------------------------------------
  // Targets for which the client's rule and the server agree

  /** A relative path made of Names: "a", "a/b", ... */
  predicate RelNames(t: string)
  {
    t != "" && AllNames(Split(t, '/'))
  }

  /** An absolute canonical path or a relative path of Names. */
  predicate PlainPath(t: string)
  {
    Canonical(t) || RelNames(t)
  }

  /** A directory argument for which updating the cache by NewCurpath agrees
      with the server (or which the client never applies: the empty string). */
  predicate SafeTarget(t: string)
  {
    t == "" || t == ".." || PlainPath(t)
  }

  lemma RelNamesFirst(t: string)
    requires RelNames(t)
    ensures t[0] != '/' && t != ".."
  {
    SplitHead(t, '/');
    if '/' !in t {
      SplitNoSep(t, '/');
    }
    assert Name(Split(t, '/')[0]);
    assert '/' in t || Split(t, '/')[0] == t;
  }

  lemma AgreeParent(cur: string)
    requires Canonical(cur)
    ensures NewCurpath(cur, "..") == Resolve(cur, "..")
    ensures Canonical(Resolve(cur, ".."))
  {
    CanonicalSegs(cur);
    var segs := Segs(cur);
    SplitNoSep("..", '/');
    assert Normalize(segs, [".."]) == Normalize(if segs == [] then [] else DropLast(segs), []);
    NewCurpathParent(segs);
    var r := if segs == [] then [] else DropLast(segs);
    assert AllNames(r);
    SegsCanon(r);
  }

  lemma AgreeAbsolute(cur: string, t: string)
    requires Canonical(t)
    ensures NewCurpath(cur, t) == Resolve(cur, t) == t
  {
    assert t == "" + "/" + t[1..];
    SplitConcat("", t[1..], '/');
    var names := Split(t[1..], '/');
    assert Split(t, '/') == [""] + names;
    assert ([""] + names)[0] == "" && ([""] + names)[1..] == names;
    assert Normalize([], [""] + names) == Normalize([], names);
    assert Resolve(cur, t) == Canon(Normalize([], names));
    if t == "/" {
      assert names == [""];
      assert Normalize([], [""]) == [];
    } else {
      NormalizeNames([], names);
      assert [] + names == names;
      CanonicalSegs(t);
      assert Segs(t) == names;
    }
  }

  lemma AgreeRelative(cur: string, t: string)
    requires Canonical(cur) && RelNames(t)
    ensures NewCurpath(cur, t) == Resolve(cur, t)
    ensures Canonical(Resolve(cur, t))
  {
    CanonicalSegs(cur);
    var segs := Segs(cur);
    RelNamesFirst(t);
    var names := Split(t, '/');
    NormalizeNames(segs, names);
    assert Resolve(cur, t) == Canon(segs + names);
    JoinSplit(t, '/');
    SegsCanon(segs + names);
    if segs == [] {
      assert cur == "/";
      assert segs + names == names;
      assert Canon(names) == "/" + t;
    } else {
      JoinAppend(segs, names, '/');
      CanonBelowRoot(segs);
    }
  }

  /** A canonical absolute argument takes the server to exactly its segments. */
  lemma TargetOfCanonical(cwd: string, t: string)
    requires Canonical(t)
    ensures Target(cwd, t) == Segs(t)
  {
    assert t == "" + "/" + t[1..];
    SplitConcat("", t[1..], '/');
    var names := Split(t[1..], '/');
    assert Split(t, '/') == [""] + names;
    assert ([""] + names)[0] == "" && ([""] + names)[1..] == names;
    assert Normalize([], [""] + names) == Normalize([], names);
    if t == "/" {
      assert names == [""];
      assert Normalize([], [""]) == [];
    } else {
      NormalizeNames([], names);
      assert [] + names == names;
    }
  }

  /** One more segment makes a longer path. */
  lemma CanonLonger(segs: seq<string>, y: string)
    requires y != ""
    ensures |Canon(segs + [y])| > |Canon(segs)|
  {
    if segs != [] {
      JoinSnoc(segs, y, '/');
    } else {
      assert [] + [y] == [y];
    }
  }

  /** The central agreement: from a canonical directory, the client's rule for
      the new cached path computes exactly the path the server moves to, and
      that path is canonical again. */
  lemma NewCurpathAgreesWithServer(cur: string, t: string)
    requires Canonical(cur) && SafeTarget(t) && t != ""
    ensures NewCurpath(cur, t) == Resolve(cur, t)
    ensures Canonical(Resolve(cur, t))
  {
    if t == ".." {
      AgreeParent(cur);
    } else if Canonical(t) {
      AgreeAbsolute(cur, t);
    } else {
      AgreeRelative(cur, t);
    }
  }

  // ---------------------------------------------------------------------
  // SetDirectory's component list (FTP.py:322-327)

  /** The pieces before filtering: "/" first for an absolute path, then the
      "/"-separated pieces of the rest. */
  function Pieces(p: string): seq<string>
    requires p != ""
  {
    if p[0] == '/' then ["/"] + Split(p[1..], '/') else Split(p, '/')
  }

  /** `[c for c in cs if len(c) > 0]` */
  function NonEmpty(cs: seq<string>): seq<string>
  {
    if cs == [] then []
    else if cs[0] == "" then NonEmpty(cs[1..])
    else [cs[0]] + NonEmpty(cs[1..])
  }

  /** The filter keeps exactly the non-empty pieces. */
  lemma {:induction false} NonEmptyMembers(cs: seq<string>)
    ensures forall c :: c in NonEmpty(cs) <==> c in cs && c != ""
    decreases |cs|
  {
    if cs != [] {
      NonEmptyMembers(cs[1..]);
      assert cs == [cs[0]] + cs[1..];
    }
  }

  /** `[c.strip() for c in cs]` */
  function StripEach(cs: seq<string>): (r: seq<string>)
    ensures |r| == |cs|
  {
    if cs == [] then [] else [Strip(cs[0])] + StripEach(cs[1..])
  }

  /** Each component is the stripped piece at the same position. */
  lemma {:induction false} StripEachAt(cs: seq<string>)
    ensures forall i :: 0 <= i < |cs| ==> StripEach(cs)[i] == Strip(cs[i])
    decreases |cs|
  {
    if cs != [] {
      StripEachAt(cs[1..]);
    }
  }

  /** The list of components SetDirectory walks. Empty pieces are dropped
      BEFORE stripping, so a blank piece survives as "". */
  function Components(p: string): seq<string>
    requires p != ""
  {
    StripEach(NonEmpty(Pieces(p)))
  }

  lemma {:induction false} NonEmptyAppend(a: seq<string>, b: seq<string>)
    ensures NonEmpty(a + b) == NonEmpty(a) + NonEmpty(b)
    decreases |a|
  {
    if a != [] {
      assert (a + b)[0] == a[0];
      assert (a + b)[1..] == a[1..] + b;
      NonEmptyAppend(a[1..], b);
      if a[0] == "" {
        assert NonEmpty(a + b) == NonEmpty(a[1..] + b);
        assert NonEmpty(a) == NonEmpty(a[1..]);
      } else {
        assert NonEmpty(a + b) == [a[0]] + NonEmpty(a[1..] + b);
        assert NonEmpty(a) == [a[0]] + NonEmpty(a[1..]);
        assert [a[0]] + (NonEmpty(a[1..]) + NonEmpty(b)) == ([a[0]] + NonEmpty(a[1..])) + NonEmpty(b);
      }
    } else {
      assert a + b == b;
    }
  }

  /** Repeated "/" contribute nothing: "a//b" walks like "a/b". */
  lemma ComponentsIgnoreRepeatedSlash(a: string, b: string)
    ensures Components(a + "//" + b) == Components(a + "/" + b)
  {
    var p, q := a + "//" + b, a + "/" + b;
    NonEmptyAppend(Split("", '/'), Split(b, '/'));
    assert NonEmpty([""]) == [];
    if a == [] {
      assert p[1..] == "" + "/" + b && q[1..] == b;
      SplitConcat("", b, '/');
      assert Pieces(p) == ["/"] + ([""] + Split(b, '/'));
      NonEmptyAppend(["/"], [""] + Split(b, '/'));
      NonEmptyAppend(["/"], Split(b, '/'));
    } else if a[0] == '/' {
      assert p[1..] == a[1..] + "/" + ("" + "/" + b);
      assert q[1..] == a[1..] + "/" + b;
      SplitConcat(a[1..], "" + "/" + b, '/');
      SplitConcat("", b, '/');
      SplitConcat(a[1..], b, '/');
      NonEmptyAppend(Split(a[1..], '/'), [""] + Split(b, '/'));
      NonEmptyAppend(Split(a[1..], '/'), Split(b, '/'));
      assert Pieces(p) == ["/"] + (Split(a[1..], '/') + ([""] + Split(b, '/')));
      assert Pieces(q) == ["/"] + (Split(a[1..], '/') + Split(b, '/'));
      NonEmptyAppend(["/"], Split(a[1..], '/') + ([""] + Split(b, '/')));
      NonEmptyAppend(["/"], Split(a[1..], '/') + Split(b, '/'));
    } else {
      assert p == a + "/" + ("" + "/" + b);
      SplitConcat(a, "" + "/" + b, '/');
      SplitConcat("", b, '/');
      SplitConcat(a, b, '/');
      NonEmptyAppend(Split(a, '/'), [""] + Split(b, '/'));
      NonEmptyAppend(Split(a, '/'), Split(b, '/'));
    }
  }

  /** A trailing "/" contributes nothing: "a/b/" walks like "a/b". */
  lemma ComponentsIgnoreTrailingSlash(p: string)
    requires p != ""
    ensures Components(p + "/") == Components(p)
  {
    var q := p + "/";
    NonEmptyAppend(Split("", '/'), []);
    if p[0] == '/' {
      assert q[1..] == p[1..] + "/" + "";
      SplitConcat(p[1..], "", '/');
      assert Pieces(q) == Pieces(p) + [""];
    } else {
      assert q == p + "/" + "";
      SplitConcat(p, "", '/');
      assert Pieces(q) == Pieces(p) + [""];
    }
    NonEmptyAppend(Pieces(p), [""]);
    assert NonEmpty([""]) == [];
    assert NonEmpty(Pieces(q)) == NonEmpty(Pieces(p)) + [] == NonEmpty(Pieces(p));
  }

  lemma NonEmptyFree(rest: seq<string>)
    requires forall i :: 0 <= i < |rest| ==> '/' !in rest[i]
    ensures forall j :: 0 <= j < |NonEmpty(rest)| ==> '/' !in NonEmpty(rest)[j]
  {
    var nr := NonEmpty(rest);
    NonEmptyMembers(rest);
    forall j | 0 <= j < |nr| ensures '/' !in nr[j] {
      assert nr[j] in nr;
    }
  }

  lemma StripEachFree(xs: seq<string>)
    requires forall i :: 0 <= i < |xs| ==> '/' !in xs[i]
    ensures forall i :: 0 <= i < |StripEach(xs)| ==>
      '/' !in StripEach(xs)[i] && Strip(StripEach(xs)[i]) == StripEach(xs)[i]
  {
    StripEachAt(xs);
    forall i | 0 <= i < |StripEach(xs)|
      ensures '/' !in StripEach(xs)[i] && Strip(StripEach(xs)[i]) == StripEach(xs)[i]
    {
      assert StripEach(xs)[i] == Strip(xs[i]);
      StripIdempotent(xs[i]);
      StripKeepsOut(xs[i], '/');
    }
  }

  /** The walk starts at the root exactly when the path is absolute; every other
      component is "/"-free and already stripped. */
  lemma ComponentsShape(p: string)
    requires p != ""
    ensures var cs := Components(p);
      (p[0] == '/' <==> (|cs| >= 1 && cs[0] == "/"))
      && forall i :: 0 <= i < |cs| && (i > 0 || p[0] != '/') ==> '/' !in cs[i] && Strip(cs[i]) == cs[i]
  {
    var cs := Components(p);
    var rest := if p[0] == '/' then Split(p[1..], '/') else Split(p, '/');
    SplitPieces(if p[0] == '/' then p[1..] else p, '/');
    var nr := NonEmpty(rest);
    NonEmptyFree(rest);
    StripEachFree(nr);
    if p[0] == '/' {
      NonEmptyAppend(["/"], rest);
      assert NonEmpty(["/"]) == ["/"];
      assert (["/"] + nr)[1..] == nr;
      assert cs == [Strip("/")] + StripEach(nr);
      assert Strip("/") == "/";
    } else {
      assert cs == StripEach(nr);
      assert '/' in "/";
    }
  }

  /** Stripping pieces that are already stripped changes nothing. */
  lemma StripEachTrimmed(xs: seq<string>)
    requires forall i :: 0 <= i < |xs| ==> Strip(xs[i]) == xs[i]
    ensures StripEach(xs) == xs
  {
    StripEachAt(xs);
  }

  lemma ComponentsOfRoot()
    ensures Components("/") == ["/"]
  {
    assert Pieces("/") == ["/", ""];
    assert NonEmpty(["/", ""]) == ["/"];
    StripTrimmed("/");
  }

  lemma ComponentsOfNames(segs: seq<string>)
    requires AllNames(segs)
    ensures StripEach(NonEmpty(["/"] + segs)) == ["/"] + segs
  {
    NonEmptyAppend(["/"], segs);
    NonEmptyNames(segs);
    assert NonEmpty(["/"]) == ["/"];
    var xs := ["/"] + segs;
    forall i | 0 <= i < |xs| ensures Strip(xs[i]) == xs[i] {
      if i == 0 {
        StripTrimmed("/");
      } else {
        NameStripped(segs[i - 1]);
      }
    }
    StripEachTrimmed(xs);
  }

  lemma NameStripped(c: string)
    requires Name(c)
    ensures Strip(c) == c
  {
    StripTrimmed(c);
  }

  /** The components of a canonical path are the root followed by its segments:
      replaying the cached path walks exactly those directories. */
  lemma ComponentsOfCanonical(p: string)
    requires Canonical(p)
    ensures Components(p) == ["/"] + Segs(p)
  {
    CanonicalSegs(p);
    if p == "/" {
      ComponentsOfRoot();
    } else {
      assert Pieces(p) == ["/"] + Segs(p);
      ComponentsOfNames(Segs(p));
    }
  }

  lemma {:induction false} NonEmptyNames(segs: seq<string>)
    requires AllNames(segs)
    ensures NonEmpty(segs) == segs
    decreases |segs|
  {
    if segs != [] {
      NonEmptyNames(segs[1..]);
    }
  }

  /** A component that is not "." is a safe target for CWD. */
  lemma ComponentSafe(c: string)
    requires c == "/" || ('/' !in c && Strip(c) == c)
    requires c != "."
    ensures SafeTarget(c)
  {
    if c == "/" {
    } else if c != "" && c != ".." {
      assert Name(c);
      SplitNoSep(c, '/');
    }
  }

  // ---------------------------------------------------------------------
  // FileExists / PathExists split of a name (FTP.py:259-264, 283-285)

  /** `"/".join(s.split("/")[:-1])` */
  function DirPart(s: string): (r: string)
    ensures |r| <= |s|
    ensures '/' in s ==> |r| < |s|
    ensures '/' !in s ==> r == ""
  {
    if '/' in s then SplitLastPiece(s, '/'); Join(DropLast(Split(s, '/')), '/')
    else ""
  }

  /** `s.split("/")[-1]` */
  function LastPart(s: string): (r: string)
    ensures |r| <= |s| && '/' !in r
    ensures '/' in s ==> |r| < |s|
    ensures '/' !in s ==> r == s
  {
    SplitPieces(s, '/');
    if '/' in s then SplitLastPiece(s, '/'); Last(Split(s, '/'))
    else SplitNoSep(s, '/'); Last(Split(s, '/'))
  }

  /** The split at the last "/" is exact: directory part, "/", last part give the name back. */
  lemma DirPartLastPart(s: string)
    requires '/' in s
    ensures DirPart(s) + "/" + LastPart(s) == s
  {
    SplitLastPiece(s, '/');
  }

  /** A plain path has no whitespace at either end, so `strip()` keeps it. */
  lemma PlainPathStripped(t: string)
    requires PlainPath(t)
    ensures Strip(t) == t
  {
    if Canonical(t) && t != "/" {
      CanonicalEnd(t);
      var parts := Split(t[1..], '/');
      JoinSplit(t[1..], '/');
      assert parts == DropLast(parts) + [Last(parts)];
      if |parts| > 1 { JoinSnoc(DropLast(parts), Last(parts), '/'); }
      assert Name(Last(parts));
      assert t[|t| - 1] == Last(parts)[|Last(parts)| - 1];
    } else if RelNames(t) {
      var parts := Split(t, '/');
      JoinSplit(t, '/');
      assert parts == DropLast(parts) + [Last(parts)];
      if |parts| > 1 {
        JoinSnoc(DropLast(parts), Last(parts), '/');
        assert Join(parts, '/') == parts[0] + ['/'] + Join(parts[1..], '/');
      }
      assert Name(Last(parts)) && Name(parts[0]);
      assert t[|t| - 1] == Last(parts)[|Last(parts)| - 1];
      assert t[0] == parts[0][0];
    }
    StripTrimmed(t);
  }

  /** The directory part of a plain path is empty or plain again. */
  lemma DirPartPlain(t: string)
    requires PlainPath(t) && '/' in t
    ensures DirPart(t) == "" || PlainPath(DirPart(t))
  {
    var parts := Split(t, '/');
    SplitLastPiece(t, '/');
    var d := DropLast(parts);
    if Canonical(t) {
      assert t == "" + "/" + t[1..];
      SplitConcat("", t[1..], '/');
      var names := Split(t[1..], '/');
      assert parts == [""] + names;
      if |names| == 1 {
        assert d == [""];
      } else {
        assert d == [""] + DropLast(names);
        JoinAppend([""], DropLast(names), '/');
        assert Join(d, '/') == Canon(DropLast(names));
        SegsCanon(DropLast(names));
      }
    } else {
      SplitPieces(t, '/');
      SplitJoin(d, '/');
      assert AllNames(d);
    }
  }

  /** Below the root, a canonical path without its leading "/" is a relative path of names. */
  lemma CanonicalTail(t: string)
    requires Canonical(t) && t != "/"
    ensures RelNames(t[1..])
  {
  }
}
