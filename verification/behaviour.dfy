/** What the operations do when no transport fault is scheduled and the
    client is connected and in step with the server: the exact result and
    the exact session afterwards, in terms of the server's tree. */
module Behaviour {
  import opened Text
  import opened Paths
  import opened Replies
  import opened Remote
  import opened Engine
  import opened Consistency

  /** Connected, no fault ahead, and in step. */
  predicate Calm(st: Session)
  {
    st.faults == [] && st.connected && Synced(st)
  }

  /** The session with both the cache and the server at directory `d`. */
  function At(st: Session, d: string): (r: Session)
    ensures r.cache == d && r.server.cwd == d && r.server.tree == st.server.tree
  {
    st.(cache := d, server := st.server.(cwd := d))
  }

  /** The names listed in the current directory, dot entries included, as
      the server's nlst returns them. */
  function Listing(st: Session): seq<string>
  {
    [".", ".."] + Entries(st.server, st.server.cwd)
  }

  // ---------------------------------------------------------------------
  // Transport without faults

  lemma SendCalm(st: Session, v: Verb)
    requires st.faults == [] && st.connected
    ensures Send(st, v) == Run(Done(Serve(st.server, v).0), st.(server := Serve(st.server, v).1))
  {
  }

  lemma RetryingCalm(st: Session, v: Verb)
    requires st.faults == [] && st.connected
    ensures Retrying(st, v) == Run(Done(Got(Serve(st.server, v).0)), st.(server := Serve(st.server, v).1))
  {
    SendCalm(st, v);
  }

  /** A proper entry name resolves to one level below the current directory. */
  lemma TargetOfEntry(cwd: string, n: string)
    requires Canonical(cwd) && Entry(n)
    ensures Target(cwd, n) == Segs(cwd) + [n]
    ensures Canon(DropLast(Target(cwd, n))) == cwd && Last(Target(cwd, n)) == n
  {
    SplitNoSep(n, '/');
    assert n[0] != '/' by { assert n[0] in n; }
    CanonicalSegs(cwd);
    assert Normalize(Segs(cwd), [n]) == Normalize(Segs(cwd) + [n], []);
    assert DropLast(Segs(cwd) + [n]) == Segs(cwd);
  }

  // ---------------------------------------------------------------------
  // PWD (FTP.py:222-240)

  /** PWD returns the server's directory, and halts exactly when the cache
      differs from it under ComparePaths. */
  lemma PwdCalm(st: Session)
    requires st.faults == [] && st.connected
    ensures Pwd(st).out.Halted? <==> !ComparePaths(st.cache, st.server.cwd)
    ensures !Pwd(st).out.Halted? ==> Pwd(st) == Run(Done(st.server.cwd), st)
  {
    RetryingCalm(st, PwdVerb);
  }

  // ---------------------------------------------------------------------
  // CWD (FTP.py:92-112)

  /** CWD to a target the cache rule handles: true without a move when the
      target is literally the current path; otherwise true exactly when the
      server has the directory, and then both the cache and the server are
      there; otherwise nothing changes. */
  lemma CwdCalm(st: Session, t: string)
    requires Calm(st) && SafeTarget(t) && t != ""
    ensures var r := Cwd(st, t);
      var moved := t != st.cache && Resolve(st.cache, t) in st.server.tree;
      && r.out == Done(t == st.cache || moved)
      && r.after == (if moved then At(st, Resolve(st.cache, t)) else st)
      && Calm(r.after)
  {
    ComparePathsEquivalence(st.cache, st.cache, st.cache);
    PwdCalm(st);
    if t != st.cache {
      RetryingCalm(st, CwdVerb(t));
      var a := Retrying(st, CwdVerb(t));
      var r := Resolve(st.cache, t);
      if r in st.server.tree {
        NewCurpathAgreesWithServer(st.cache, t);
        var s := At(st, r);
        assert a.after.(cache := NewCurpath(a.after.cache, t)) == s;
        ComparePathsEquivalence(r, r, r);
        PwdCalm(s);
      }
    }
  }

  /** CWD("") from a directory that exists: the server accepts the empty
      argument, and UpdateCurpath then fails on `newdir[0]`. */
  lemma CwdEmptyRaises(st: Session)
    requires Calm(st) && st.cache in st.server.tree
    ensures Cwd(st, "").out == Raised
  {
    ComparePathsEquivalence(st.cache, st.cache, st.cache);
    PwdCalm(st);
    RetryingCalm(st, CwdVerb(""));
    CanonicalSegs(st.cache);
    assert Split("", '/') == [""];
    assert Normalize(Segs(st.cache), [""]) == Normalize(Segs(st.cache), []);
    assert Resolve(st.cache, "") == st.cache;
  }

  // ---------------------------------------------------------------------
  // FileExists (FTP.py:274-303)

  /** A name without "/" is looked up in the listing of the current directory. */
  lemma FileExistsHere(st: Session, n: string)
    requires Calm(st) && '/' !in n
    ensures FileExists(st, n) == Run(Done(n in Listing(st)), st)
  {
    assert n != "/" by { assert '/' in "/"; }
    SendCalm(st, NlstVerb);
  }

  /** An absolute name one level below the root is looked up in the CURRENT
      directory, not in the root: its directory part is "". */
  lemma FileExistsTopLevelLooksHere(st: Session, n: string)
    requires n != "" && '/' !in n
    ensures FileExists(st, "/" + n) == FileExists(st, n)
  {
    var s := "/" + n;
    assert s == "" + ['/'] + n;
    SplitConcat("", n, '/');
    SplitNoSep(n, '/');
    assert Split(s, '/') == [""] + [n];
    assert '/' in s by { assert s[0] == '/'; }
    assert DirPart(s) == "";
    assert LastPart(s) == n;
    assert s != "/" by { assert |s| == |n| + 1; }
    assert FileExists(st, s) == LookUp(st, n);
    assert n != "/" by { assert '/' in "/"; }
  }

  // ---------------------------------------------------------------------
  // PathExists (FTP.py:245-268)

  /** A name is listed exactly when the directory holds it: it is not a dot entry. */
  lemma ListingName(st: Session, n: string)
    requires Name(n)
    ensures n in Listing(st) <==> n in Entries(st.server, st.server.cwd)
  {
  }

  lemma SplitTwo(a: string, b: string)
    requires Name(a) && Name(b)
    ensures Split(a + "/" + b, '/') == [a, b] && Join([a], '/') == a
  {
    SplitConcat(a, b, '/');
    SplitNoSep(a, '/');
    SplitNoSep(b, '/');
  }

  lemma SplitThree(a: string, b: string, c: string)
    requires Name(a) && Name(b) && Name(c)
    ensures var s := a + "/" + b + "/" + c;
      && Split(s, '/') == [a, b, c] && '/' in s && s != "/"
      && DirPart(s) == a + "/" + b && LastPart(s) == c
  {
    var s := a + "/" + b + "/" + c;
    SplitTwo(b, c);
    SplitConcat(a, b + "/" + c, '/');
    SplitNoSep(a, '/');
    assert s == a + ['/'] + (b + "/" + c);
    assert s[|a|] == '/';
    assert DropLast([a, b, c]) == [a, b] && Last([a, b, c]) == c;
    assert [a, b][1..] == [b];
  }

  /** PathExists of a bare name looks it up in the current directory and
      moves nowhere. */
  lemma PathExistsName(st: Session, n: string)
    requires Calm(st) && Name(n)
    ensures PathExists(st, n) == Run(Done(n in Entries(st.server, st.cache)), st)
  {
    NameStripped(n);
    SplitNoSep(n, '/');
    assert DropLast([n]) == [] && Last([n]) == n;
    assert n[0] != '/' by { assert n[0] in n; }
    FileExistsHere(st, n);
    assert n in Listing(st) <==> n in Entries(st.server, st.cache);
  }

  /** PathExists of a canonical absolute path first changes to the root, so
      the client is at the root afterwards whatever the answer; below the
      root it then asks FileExists for the rest of the path from there. */
  lemma PathExistsAbsolute(st: Session, p: string)
    requires Calm(st) && Canonical(p)
    ensures Calm(At(st, "/"))
    ensures p == "/" ==> PathExists(st, p) == Run(Done(true), At(st, "/"))
    ensures p != "/" ==> PathExists(st, p) == FileExists(At(st, "/"), p[1..])
  {
    PlainPathStripped(p);
    assert Canonical("/");
    ResolveRoot(st.cache);
    CwdCalm(st, "/");
    assert Cwd(st, "/") == Run(Done(true), At(st, "/"));
  }

  /** PathExists("/x") answers from the listing of the root, and leaves the
      client at the root even when the answer is False. */
  lemma PathExistsTopLevel(st: Session, x: string)
    requires Calm(st) && Name(x)
    ensures PathExists(st, "/" + x) == Run(Done(x in st.server.tree["/"]), At(st, "/"))
  {
    NameEntry(x);
    TargetOfTop("/", x);
    SegsCanon([x]);
    PathExistsAbsolute(st, "/" + x);
    assert ("/" + x)[1..] == x;
    FileExistsHere(At(st, "/"), x);
    ListingName(At(st, "/"), x);
  }

  /** PathExists("a/b") changes into "a" and looks "b" up there; the client
      stays in "a" whatever the answer. */
  lemma PathExistsTwoNames(st: Session, a: string, b: string)
    requires Calm(st) && Name(a) && Name(b)
    requires Canon(Segs(st.cache) + [a]) in st.server.tree
    ensures var d := Canon(Segs(st.cache) + [a]);
      && PathExists(st, a + "/" + b) == Run(Done(b in st.server.tree[d]), At(st, d))
      && Calm(At(st, d)) && Segs(d) == Segs(st.cache) + [a]
  {
    var d := Canon(Segs(st.cache) + [a]);
    CwdIntoName(st, a);
    PathExistsNames(st, a, b, At(st, d));
    FileExistsHere(At(st, d), b);
    ListingName(At(st, d), b);
  }

  /** CWD to a directory named in the current one enters it. */
  lemma CwdIntoName(st: Session, a: string)
    requires Calm(st) && Name(a) && Canon(Segs(st.cache) + [a]) in st.server.tree
    ensures var d := Canon(Segs(st.cache) + [a]);
      && Cwd(st, a) == Run(Done(true), At(st, d)) && Calm(At(st, d)) && Segs(d) == Segs(st.cache) + [a]
  {
    CanonicalSegs(st.cache);
    assert AllNames(Segs(st.cache) + [a]);
    SegsCanon(Segs(st.cache) + [a]);
    NameEntry(a);
    TargetOfEntry(st.cache, a);
    assert a != st.cache by {
      assert st.cache[0] == '/';
      assert a[0] in a;
    }
    CwdCalm(st, a);
  }

  /** PathExists("a/b") is CWD("a") followed by FileExists("b"). */
  lemma PathExistsNames(st: Session, a: string, b: string, mid: Session)
    requires Name(a) && Name(b) && Cwd(st, a) == Run(Done(true), mid)
    ensures PathExists(st, a + "/" + b) == FileExists(mid, b)
  {
    var p := a + "/" + b;
    SplitTwo(a, b);
    assert RelNames(p);
    PlainPathStripped(p);
    assert p[0] == a[0];
    assert a[0] != '/' by { assert a[0] in a; }
    PathExistsBelow(st, p, a, b, mid);
  }

  lemma PathExistsBelow(st: Session, p: string, a: string, b: string, mid: Session)
    requires Split(p, '/') == [a, b] && Join([a], '/') == a && a != "" && b != ""
    requires Strip(p) == p && p != "" && p[0] != '/'
    requires Cwd(st, a) == Run(Done(true), mid)
    ensures PathExists(st, p) == FileExists(mid, b)
  {
    assert DropLast([a, b]) == [a] && Last([a, b]) == b;
  }

  lemma FileExistsPathMissing(st: Session, s: string, mid: Session)
    requires s != "/" && '/' in s && DirPart(s) != "" && PathExists(st, DirPart(s)) == Run(Done(false), mid)
    ensures FileExists(st, s) == Run(Done(false), mid)
  {
  }

  lemma FileExistsPathFound(st: Session, s: string, mid: Session, mid2: Session)
    requires s != "/" && '/' in s && DirPart(s) != "" && PathExists(st, DirPart(s)) == Run(Done(true), mid)
    requires Cwd(mid, DirPart(s)).out.Done? && Cwd(mid, DirPart(s)).after == mid2
    ensures FileExists(st, s) == LookUp(mid2, LastPart(s))
  {
  }

  /** FileExists("a/b/c") from a directory that holds "a": PathExists("a/b")
      has already moved the client into "a", so the CWD("a/b") that follows
      is resolved below "a"; when "a/a/b" is missing it fails unnoticed, and
      "c" is looked up in "a", not in "a/b". */
  lemma FileExistsLooksInWrongDirectory(st: Session, a: string, b: string, c: string)
    requires Calm(st) && Name(a) && Name(b) && Name(c)
    requires var d := Canon(Segs(st.cache) + [a]);
      d in st.server.tree && Canon(Segs(d) + [a, b]) !in st.server.tree
    ensures var d := Canon(Segs(st.cache) + [a]);
      FileExists(st, a + "/" + b + "/" + c)
        == Run(Done(b in st.server.tree[d] && c in st.server.tree[d]), At(st, d))
  {
    var d := Canon(Segs(st.cache) + [a]);
    var s := a + "/" + b + "/" + c;
    var p := a + "/" + b;
    var tree := st.server.tree;
    SplitThree(a, b, c);
    PathExistsTwoNames(st, a, b);
    var s1 := At(st, d);
    if b !in tree[d] {
      FileExistsPathMissing(st, s, s1);
    } else {
      SplitTwo(a, b);
      assert AllNames([a, b]);
      assert RelNames(p);
      assert p[0] == a[0];
      assert a[0] != '/' by { assert a[0] in a; }
      NormalizeNames(Segs(d), [a, b]);
      assert Resolve(d, p) == Canon(Segs(d) + [a, b]);
      assert p != d by {
        assert d[0] == '/';
      }
      CwdCalm(s1, p);
      FileExistsPathFound(st, s, s1, s1);
      SendCalm(s1, NlstVerb);
      ListingName(s1, c);
    }
  }

  /** PathExists("/a/b/c"): after CWD("/") it asks FileExists("a/b/c"), so
      when "/a/a/b" is missing the answer is whether "b" and "c" are both
      listed in "/a", not whether "/a/b/c" exists; the client is left in "/a". */
  lemma PathExistsAbsoluteLooksInWrongDirectory(st: Session, a: string, b: string, c: string)
    requires Calm(st) && Name(a) && Name(b) && Name(c)
    requires Canon([a]) in st.server.tree && Canon([a, a, b]) !in st.server.tree
    ensures var d := Canon([a]);
      PathExists(st, "/" + a + "/" + b + "/" + c)
        == Run(Done(b in st.server.tree[d] && c in st.server.tree[d]), At(st, d))
  {
    var d := Canon([a]);
    PathExistsFromRoot(st, a, b, c);
    SegsCanon([a]);
    assert Segs("/") + [a] == [a] && Segs(d) + [a, b] == [a, a, b];
    FileExistsLooksInWrongDirectory(At(st, "/"), a, b, c);
  }

  /** PathExists("/a/b/c") is FileExists("a/b/c") asked from the root. */
  lemma PathExistsFromRoot(st: Session, a: string, b: string, c: string)
    requires Calm(st) && Name(a) && Name(b) && Name(c)
    ensures Calm(At(st, "/"))
    ensures PathExists(st, "/" + a + "/" + b + "/" + c) == FileExists(At(st, "/"), a + "/" + b + "/" + c)
  {
    var p := "/" + a + "/" + b + "/" + c;
    assert p == Canon([a, b, c]) by {
      assert [a, b, c][1..] == [b, c] && [b, c][1..] == [c];
      assert Join([b, c], '/') == b + "/" + c;
      assert Join([a, b, c], '/') == a + "/" + (b + "/" + c);
    }
    SegsCanon([a, b, c]);
    assert p != "/" && p[1..] == a + "/" + b + "/" + c;
    PathExistsAbsolute(st, p);
  }

  /** CWD(".") is accepted by the server, which stays where it is, but the
      cache rule appends "/." and the following PWD halts. */
  lemma CwdDotHalts(st: Session)
    requires Calm(st) && st.cache in st.server.tree
    ensures Cwd(st, ".").out == Halted
  {
    var cur := st.cache;
    assert "." != cur by { assert cur[0] == '/'; }
    assert Resolve(cur, ".") == cur by {
      SplitNoSep(".", '/');
      CanonicalSegs(cur);
      assert Normalize(Segs(cur), ["."]) == Normalize(Segs(cur), []);
    }
    CwdAccepted(st, ".");
    var s := At(st, cur).(cache := NewCurpath(cur, "."));
    assert !ComparePaths(s.cache, cur) by {
      assert |WithSlash(s.cache)| > |WithSlash(cur)|;
    }
    PwdCalm(s);
  }

  /** FileExists("./x"): PathExists(".") finds "." in the listing, and the
      CWD(".") that follows halts. */
  lemma FileExistsDotHalts(st: Session, x: string)
    requires Calm(st) && st.cache in st.server.tree && Name(x)
    ensures FileExists(st, "./" + x).out == Halted
  {
    var s := "./" + x;
    assert '/' in s && s != "/" && DirPart(s) == "." by {
      DotPrefixParts(x);
    }
    DotFoundThenHalts(st);
    FileExistsCwdFails(st, s, st);
  }

  /** "." is always listed, but changing into it halts. */
  lemma DotFoundThenHalts(st: Session)
    requires Calm(st) && st.cache in st.server.tree
    ensures PathExists(st, ".") == Run(Done(true), st) && Cwd(st, ".").out == Halted
  {
    assert PathExists(st, ".") == Run(Done(true), st) by {
      StripTrimmed(".");
      PathExistsHere(st, ".");
    }
    CwdDotHalts(st);
  }

  /** PathExists of one stripped piece without "/" looks it up in the
      listing of the current directory and does not move. */
  lemma PathExistsHere(st: Session, p: string)
    requires Calm(st) && Strip(p) == p && p != "" && '/' !in p
    ensures PathExists(st, p) == Run(Done(p in Listing(st)), st)
  {
    assert PathExists(st, p) == FileExists(st, p) by {
      assert p[0] != '/' by { assert p[0] in p; }
      SplitNoSep(p, '/');
      PathExistsPiece(st, p);
    }
    FileExistsHere(st, p);
  }

  /** PathExists of one stripped relative piece is FileExists of it. */
  lemma PathExistsPiece(st: Session, p: string)
    requires Strip(p) == p && p != "" && p[0] != '/' && Split(p, '/') == [p]
    ensures PathExists(st, p) == FileExists(st, p)
  {
    assert DropLast([p]) == [] && Last([p]) == p;
  }

  /** "./" + x splits into the directory part "." and the last part x. */
  lemma DotPrefixParts(x: string)
    requires Name(x)
    ensures var s := "./" + x;
      '/' in s && s != "/" && DirPart(s) == "." && LastPart(s) == x
  {
    var s := "./" + x;
    assert s == "." + ['/'] + x;
    SplitConcat(".", x, '/');
    SplitNoSep(".", '/');
    SplitNoSep(x, '/');
    assert s[1] == '/';
    assert DropLast([".", x]) == ["."] && Last([".", x]) == x;
  }

  lemma FileExistsCwdFails(st: Session, s: string, mid: Session)
    requires s != "/" && '/' in s && DirPart(s) != "" && PathExists(st, DirPart(s)) == Run(Done(true), mid)
    requires !Cwd(mid, DirPart(s)).out.Done?
    ensures FileExists(st, s).out == Fail(Cwd(mid, DirPart(s)).out)
  {
  }

  // ---------------------------------------------------------------------
  // MKD, DeleteFile, Rename on names in the current directory

  lemma ServeMkd(sv: Server, n: string)
    ensures Serve(sv, MkdVerb(n)) == MakeDir(sv, n)
  {
  }

  lemma ServeDele(sv: Server, n: string)
    ensures Serve(sv, DeleVerb(n)) == RemoveFile(sv, n)
  {
  }

  /** The server's mkd of a new proper name in its current directory: the
      reply is the name, and the directory appears, empty and listed. */
  lemma MakeDirHere(sv: Server, n: string)
    requires Canonical(sv.cwd) && Entry(n) && sv.cwd in sv.tree
    requires n !in sv.tree[sv.cwd] && Canon(Segs(sv.cwd) + [n]) !in sv.tree
    ensures MakeDir(sv, n) == (Text(n), sv.(tree :=
        sv.tree[Canon(Segs(sv.cwd) + [n]) := []][sv.cwd := sv.tree[sv.cwd] + [n]]))
  {
    TargetOfEntry(sv.cwd, n);
  }

  /** MKD of a new name in an existing directory creates it, empty, and lists it. */
  lemma MkdCalm(st: Session, n: string)
    requires Calm(st) && Entry(n) && st.cache in st.server.tree
    requires n !in st.server.tree[st.cache] && Canon(Segs(st.cache) + [n]) !in st.server.tree
    ensures var tree := st.server.tree;
      Mkd(st, n) == Run(Done(true), st.(server := st.server.(tree :=
        tree[Canon(Segs(st.cache) + [n]) := []][st.cache := tree[st.cache] + [n]])))
  {
    RetryingCalm(st, MkdVerb(n));
    ServeMkd(st.server, n);
    MakeDirHere(st.server, n);
  }

  /** MKD of a name the current directory already lists: the server
      refuses and nothing changes. The answer is False, except for a name
      that is the refusal text itself, which the `msg == newdir` test of
      FTP.py:127 accepts. */
  lemma MkdExisting(st: Session, n: string)
    requires Calm(st) && Entry(n) && st.cache in st.server.tree && n in st.server.tree[st.cache]
    ensures Mkd(st, n) == Run(Done(n == "550 " + "Can't create directory: File exists"), st)
  {
    var msg := "550 " + "Can't create directory: File exists";
    assert Retrying(st, MkdVerb(n)) == Run(Done(Got(Text(msg))), st) by {
      RetryingCalm(st, MkdVerb(n));
      ServeMkd(st.server, n);
      MakeDirListed(st.server, n);
    }
    assert MkdSucceeded(msg, n) <==> n == msg by {
      RefusalIsNoBanner(n);
    }
  }

  /** The server's mkd of a name its current directory lists: refused, no change. */
  lemma MakeDirListed(sv: Server, n: string)
    requires Canonical(sv.cwd) && Entry(n) && sv.cwd in sv.tree && n in sv.tree[sv.cwd]
    ensures MakeDir(sv, n) == (Text("550 " + "Can't create directory: File exists"), sv)
  {
    TargetOfEntry(sv.cwd, n);
  }

  /** The refusal text carries neither success code, so only a name equal
      to it passes the `MkdSucceeded` test. */
  lemma RefusalIsNoBanner(n: string)
    ensures MkdSucceeded("550 " + "Can't create directory: File exists", n)
      <==> n == "550 " + "Can't create directory: File exists"
  {
    var msg := "550 " + "Can't create directory: File exists";
    assert !StartsWith(msg, "250 ") && !StartsWith(msg, "257 ") by {
      assert msg[..4] == "550 ";
    }
  }

  /** The server's dele of a proper name in its current directory: it
      succeeds exactly for a listed file, which leaves the listing. */
  lemma RemoveFileHere(sv: Server, f: string)
    requires Canonical(sv.cwd) && Entry(f)
    ensures var isFile := f in Entries(sv, sv.cwd) && Canon(Segs(sv.cwd) + [f]) !in sv.tree;
      var res := RemoveFile(sv, f);
      && res.0.Text? && (Completed(res.0.msg) <==> isFile)
      && res.1 == (if isFile then sv.(tree := sv.tree[sv.cwd := Without(sv.tree[sv.cwd], f)]) else sv)
  {
    TargetOfEntry(sv.cwd, f);
    if f in Entries(sv, sv.cwd) && Canon(Segs(sv.cwd) + [f]) !in sv.tree {
      RemoveFileFound(sv, f, Target(sv.cwd, f));
    } else {
      RemoveFileNotFound(sv, f, Target(sv.cwd, f));
    }
  }

  lemma RemoveFileFound(sv: Server, f: string, segs: seq<string>)
    requires segs == Target(sv.cwd, f) && IsFile(sv, segs)
    ensures var res := RemoveFile(sv, f);
      && res.0.Text? && Completed(res.0.msg)
      && res.1 == sv.(tree := sv.tree[Canon(DropLast(segs)) := Without(sv.tree[Canon(DropLast(segs))], Last(segs))])
  {
    var msg := "250 Deleted " + f;
    assert msg[..4] == "250 ";
  }

  lemma RemoveFileNotFound(sv: Server, f: string, segs: seq<string>)
    requires segs == Target(sv.cwd, f) && !IsFile(sv, segs)
    ensures var res := RemoveFile(sv, f);
      && res.0.Text? && !Completed(res.0.msg) && res.1 == sv
  {
    var msg := "550 Could not delete " + f + ": No such file or directory";
    assert msg[..4] == "550 ";
  }

  /** DeleteFile of a proper name in the current directory: true for a
      missing name, which changes nothing, and for a listed file, which
      leaves the listing; false for a directory, which stays. */
  lemma DeleteFileCalm(st: Session, f: string)
    requires Calm(st) && Entry(f)
    ensures var r := DeleteFile(st, f);
      var tree := st.server.tree;
      var here := Entries(st.server, st.cache);
      var isFile := f in here && Canon(Segs(st.cache) + [f]) !in tree;
      && r.out == Done(f !in here || isFile)
      && r.after == (if isFile then st.(server := st.server.(tree := tree[st.cache := Without(tree[st.cache], f)])) else st)
  {
    if f in Entries(st.server, st.cache) {
      DeleteFileListed(st, f);
    } else {
      assert FileExists(st, f) == Run(Done(false), st) by {
        FileExistsHere(st, f);
        assert f !in Listing(st);
      }
      DeleteFileMissing(st, f, st);
    }
  }

  /** DeleteFile of a listed name: the server's dele decides. */
  lemma DeleteFileListed(st: Session, f: string)
    requires Calm(st) && Entry(f) && f in Entries(st.server, st.cache)
    ensures var res := RemoveFile(st.server, f);
      DeleteFile(st, f) == Run(Done(Completed(Msg(res.0))), st.(server := res.1))
    ensures var tree := st.server.tree;
      var isFile := Canon(Segs(st.cache) + [f]) !in tree;
      var res := RemoveFile(st.server, f);
      && (Completed(Msg(res.0)) <==> isFile)
      && res.1 == (if isFile then st.server.(tree := tree[st.cache := Without(tree[st.cache], f)]) else st.server)
  {
    FileExistsHere(st, f);
    assert f in Listing(st);
    RetryingCalm(st, DeleVerb(f));
    ServeDele(st.server, f);
    RemoveFileHere(st.server, f);
    var res := RemoveFile(st.server, f);
    DeleteFileUnfolds(st, f, st, res.0, st.(server := res.1));
  }

  lemma DeleteFileUnfolds(st: Session, f: string, mid: Session, rep: Reply, after: Session)
    requires !Blank(f) && FileExists(st, f) == Run(Done(true), mid)
    requires Retrying(mid, DeleVerb(f)) == Run(Done(Got(rep)), after)
    ensures DeleteFile(st, f) == Run(Done(Completed(Msg(rep))), after)
  {
  }

  lemma DeleteFileMissing(st: Session, f: string, mid: Session)
    requires !Blank(f) && FileExists(st, f) == Run(Done(false), mid)
    ensures DeleteFile(st, f) == Run(Done(true), mid)
  {
  }

  /** DeleteFile is idempotent: once it has returned true, a second call
      returns true and changes nothing. */
  lemma DeleteFileIdempotent(st: Session, f: string)
    requires Calm(st) && Entry(f)
    ensures var r := DeleteFile(st, f);
      && r.out.Done? && Calm(r.after)
      && (r.out.value ==> DeleteFile(r.after, f) == Run(Done(true), r.after))
  {
    DeleteFileCalm(st, f);
    DeleteFileSynced(st, f);
    var r := DeleteFile(st, f);
    if r.out.value {
      var here := Entries(st.server, st.cache);
      if f in here {
        WithoutMembers(st.server.tree[st.cache], f);
      }
      assert f !in Entries(r.after.server, r.after.cache);
      DeleteFileCalm(r.after, f);
    }
  }

  /** Rename of a name the current directory does not list is a failure and
      changes nothing. */
  lemma RenameMissing(st: Session, a: string, b: string)
    requires Calm(st) && '/' !in a && !Blank(a) && !Blank(b) && a !in Listing(st)
    ensures Rename(st, a, b) == Run(Done(false), st)
  {
    FileExistsHere(st, a);
  }

  /** The server's rename of a listed file to a proper name: it succeeds
      unless the new name is a directory. */
  lemma RenameFileHere(sv: Server, a: string, b: string)
    requires Canonical(sv.cwd) && Entry(a) && Entry(b)
    requires a in Entries(sv, sv.cwd) && Canon(Segs(sv.cwd) + [a]) !in sv.tree
    ensures var ok := Canon(Segs(sv.cwd) + [b]) !in sv.tree;
      var es := sv.tree[sv.cwd];
      var res := RenameFile(sv, a, b);
      && res.0.Text? && (Completed(res.0.msg) <==> ok)
      && res.1 == (if ok then sv.(tree := sv.tree[sv.cwd := Without(Without(es, a), b) + [b]]) else sv)
  {
    TargetOfEntry(sv.cwd, a);
    TargetOfEntry(sv.cwd, b);
    var from, to := Target(sv.cwd, a), Target(sv.cwd, b);
    assert sv.cwd in sv.tree;
    assert IsFile(sv, from);
    if Canon(Segs(sv.cwd) + [b]) !in sv.tree {
      RenameFileMoves(sv, a, b, from, to);
      var w := Without(sv.tree[sv.cwd], a);
      UpdateTwice(sv.tree, sv.cwd, w, Without(w, b) + [b]);
    } else {
      RenameFileRefused(sv, a, b, from, to);
    }
  }

  lemma UpdateTwice<K, V>(m: map<K, V>, k: K, v: V, u: V)
    ensures m[k := v][k := u] == m[k := u]
  {
  }

  lemma RenameFileMoves(sv: Server, a: string, b: string, from: seq<string>, to: seq<string>)
    requires from == Target(sv.cwd, a) && to == Target(sv.cwd, b) && IsFile(sv, from)
    requires to != [] && Canon(DropLast(to)) in sv.tree && Entry(Last(to)) && Canon(to) !in sv.tree
    ensures var pa, pb := Canon(DropLast(from)), Canon(DropLast(to));
      var t1 := sv.tree[pa := Without(sv.tree[pa], Last(from))];
      var res := RenameFile(sv, a, b);
      && res.0.Text? && Completed(res.0.msg)
      && res.1 == sv.(tree := t1[pb := Without(t1[pb], Last(to)) + [Last(to)]])
  {
    var msg := "250 " + "File successfully renamed or moved";
    assert msg[..4] == "250 ";
  }

  lemma RenameFileRefused(sv: Server, a: string, b: string, from: seq<string>, to: seq<string>)
    requires from == Target(sv.cwd, a) && to == Target(sv.cwd, b)
    requires !(IsFile(sv, from) && to != [] && Canon(DropLast(to)) in sv.tree && Entry(Last(to))
      && Canon(to) !in sv.tree)
    ensures var res := RenameFile(sv, a, b);
      && res.0.Text? && !Completed(res.0.msg) && res.1 == sv
  {
    var msg := "451 " + "Rename/move failure: No such file or directory";
    assert msg[..4] == "451 ";
  }

  lemma ServeRename(sv: Server, a: string, b: string)
    ensures Serve(sv, RenameVerb(a, b)) == RenameFile(sv, a, b)
  {
  }

  /** Rename of a listed file to a proper name that is not a directory
      succeeds; the new name ends the listing and the old one is gone. */
  lemma RenameCalm(st: Session, a: string, b: string)
    requires Calm(st) && Entry(a) && Entry(b)
    requires a in Entries(st.server, st.cache) && Canon(Segs(st.cache) + [a]) !in st.server.tree
    ensures var r := Rename(st, a, b);
      var ok := Canon(Segs(st.cache) + [b]) !in st.server.tree;
      var es := st.server.tree[st.cache];
      && r.out == Done(ok)
      && r.after == (if ok then st.(server := st.server.(tree := st.server.tree[st.cache := Without(Without(es, a), b) + [b]])) else st)
  {
    assert !Blank(a) && !Blank(b);
    FileExistsHere(st, a);
    assert a in Listing(st);
    RetryingCalm(st, RenameVerb(a, b));
    ServeRename(st.server, a, b);
    RenameFileHere(st.server, a, b);
    var res := RenameFile(st.server, a, b);
    RenameUnfolds(st, a, b, st, res.0, st.(server := res.1));
  }

  lemma RenameUnfolds(st: Session, a: string, b: string, mid: Session, rep: Reply, after: Session)
    requires !Blank(a) && !Blank(b) && FileExists(st, a) == Run(Done(true), mid)
    requires Retrying(mid, RenameVerb(a, b)) == Run(Done(Got(rep)), after)
    ensures Rename(st, a, b) == Run(Done(Completed(Msg(rep))), after)
  {
  }

  // ---------------------------------------------------------------------
  // SetDirectory without creating (FTP.py:310-346)

  /** How many of the names `cs`, walked from the directory with segments
      `base`, lead through directories that exist and are listed in the
      directory before them. */
  function Reach(tree: map<string, seq<string>>, base: seq<string>, cs: seq<string>): (k: nat)
    ensures k <= |cs|
    decreases |cs|
  {
    if cs == [] then 0
    else if Canon(base) in tree && cs[0] in tree[Canon(base)] && Canon(base + [cs[0]]) in tree
    then 1 + Reach(tree, base + [cs[0]], cs[1..])
    else 0
  }

  /** A Name is a proper entry and a target the cache rule handles. */
  lemma NameEntry(c: string)
    requires Name(c)
    ensures Entry(c) && RelNames(c) && SafeTarget(c)
  {
    StripTrimmed(c);
    SplitNoSep(c, '/');
  }

  /** Making sure that an existing name exists, without creating it: the
      listing of the current directory decides, and nothing changes. */
  lemma EnsureHere(st: Session, c: string)
    requires Calm(st) && Name(c)
    ensures Ensure(st, c, false) == Run(Done(c in Entries(st.server, st.cache)), st)
  {
    FileExistsHere(st, c);
  }

  /** One step of the loop: the name is listed and is a directory, so the
      walk moves into it. */
  lemma StepCalm(st: Session, c: string)
    requires Calm(st) && Name(c) && c in Entries(st.server, st.cache)
    ensures var d := Canon(Segs(st.cache) + [c]);
      && Cwd(st, c) == (if d in st.server.tree then Run(Done(true), At(st, d)) else Run(Done(false), st))
      && (d in st.server.tree ==> Calm(At(st, d)) && Segs(d) == Segs(st.cache) + [c])
  {
    NameEntry(c);
    CwdCalm(st, c);
    TargetOfEntry(st.cache, c);
    assert c != st.cache by {
      assert '/' in st.cache by { assert st.cache[0] == '/'; }
    }
    CanonicalSegs(st.cache);
    SegsCanon(Segs(st.cache) + [c]);
  }

  lemma AppendHead<T>(segs: seq<T>, cs: seq<T>)
    requires cs != []
    ensures segs + [cs[0]] + cs[1..] == segs + cs
  {
    assert cs == [cs[0]] + cs[1..];
  }

  lemma PrefixStep<T>(segs: seq<T>, cs: seq<T>, k: nat)
    requires k < |cs|
    ensures (segs + [cs[0]]) + cs[1..][..k] == segs + cs[..k + 1]
  {
    assert cs[..k + 1] == [cs[0]] + cs[1..][..k];
  }

  /** The loop over names without creating: it passes the names that lead
      through listed directories and stops at the first that does not,
      true exactly when it passed them all. The directories it passed stay
      entered; nothing else changes. */
  lemma {:induction false} WalkCalm(st: Session, cs: seq<string>)
    requires Calm(st) && AllNames(cs)
    ensures var segs := Segs(st.cache);
      var k := Reach(st.server.tree, segs, cs);
      Walk(st, cs, false) == Run(Done(k == |cs|), At(st, Canon(segs + cs[..k])))
    decreases |cs|, 1
  {
    CanonicalSegs(st.cache);
    var segs := Segs(st.cache);
    if cs == [] {
      assert segs + cs[..0] == segs;
    } else {
      var c := cs[0];
      assert Name(c);
      EnsureHere(st, c);
      if c in Entries(st.server, st.cache) {
        StepCalm(st, c);
        if Canon(segs + [c]) in st.server.tree {
          WalkCalmEnters(st, cs);
        } else {
          WalkSecondFails(st, cs, false, st, st);
          assert segs + cs[..0] == segs;
        }
      } else {
        WalkFirstFails(st, cs, false, st);
        assert segs + cs[..0] == segs;
      }
    }
  }

  /** The step of the loop that enters the first name's directory. */
  lemma {:induction false} WalkCalmEnters(st: Session, cs: seq<string>)
    requires Calm(st) && AllNames(cs) && cs != [] && cs[0] in Entries(st.server, st.cache)
    requires Canon(Segs(st.cache) + [cs[0]]) in st.server.tree
    ensures var segs := Segs(st.cache);
      var k := Reach(st.server.tree, segs, cs);
      Walk(st, cs, false) == Run(Done(k == |cs|), At(st, Canon(segs + cs[..k])))
    decreases |cs|, 0
  {
    CanonicalSegs(st.cache);
    var segs := Segs(st.cache);
    var c := cs[0];
    assert Name(c);
    EnsureHere(st, c);
    StepCalm(st, c);
    var s2 := At(st, Canon(segs + [c]));
    WalkPasses(st, cs, false, st, s2);
    AllNamesTail(cs);
    WalkCalm(s2, cs[1..]);
    var k2 := Reach(st.server.tree, segs + [c], cs[1..]);
    PrefixStep(segs, cs, k2);
  }

  lemma AllNamesTail(cs: seq<string>)
    requires cs != [] && AllNames(cs)
    ensures AllNames(cs[1..])
  {
    forall i | 0 <= i < |cs[1..]| ensures Name(cs[1..][i]) {
      assert cs[1..][i] == cs[i + 1];
    }
  }

  /** Past its two early exits, SetDirectory is the loop over the components. */
  lemma SetDirectoryWalks(st: Session, p: string, create: bool)
    requires p != "" && !(p[0] == '/' && p == st.cache)
    ensures SetDirectory(st, p, create) == Walk(st, Components(p), create)
  {
  }

  /** The component "/" always exists, and the cwd to it always succeeds. */
  lemma RootStep(st: Session, create: bool)
    requires Calm(st)
    ensures Ensure(st, "/", create) == Run(Done(true), st)
    ensures Cwd(st, "/") == Run(Done(true), At(st, "/")) && Calm(At(st, "/"))
  {
    assert Canonical("/");
    ResolveRoot(st.cache);
    CwdCalm(st, "/");
  }

  /** SetDirectory on a canonical absolute path, without creating: nothing
      happens when the cache already holds it; otherwise it returns to the
      root and walks down, true exactly when every directory on the way
      exists, ending in the deepest one that does. */
  lemma SetDirectoryCalm(st: Session, p: string)
    requires Calm(st) && Canonical(p)
    ensures var segs := Segs(p);
      var k := Reach(st.server.tree, [], segs);
      SetDirectory(st, p, false) ==
        if p == st.cache then Run(Done(true), st)
        else Run(Done(k == |segs|), At(st, Canon(segs[..k])))
  {
    if p != st.cache {
      CanonicalSegs(p);
      var segs := Segs(p);
      var root := At(st, "/");
      assert SetDirectory(st, p, false) == Walk(root, segs, false) by {
        ComponentsOfCanonical(p);
        SetDirectoryWalks(st, p, false);
        RootStep(st, false);
        WalkPasses(st, ["/"] + segs, false, st, root);
        assert (["/"] + segs)[1..] == segs;
      }
      assert Calm(root) && Segs(root.cache) == [] by {
        RootStep(st, false);
        assert Segs("/") == [];
      }
      WalkCalm(root, segs);
      assert [] + segs[..Reach(st.server.tree, [], segs)] == segs[..Reach(st.server.tree, [], segs)];
    }
  }

  /** SetDirectory on a relative path of names, without creating: it walks
      down from the current directory. */
  lemma SetDirectoryRelativeCalm(st: Session, p: string)
    requires Calm(st) && RelNames(p)
    ensures var names := Split(p, '/');
      var segs := Segs(st.cache);
      var k := Reach(st.server.tree, segs, names);
      SetDirectory(st, p, false) == Run(Done(k == |names|), At(st, Canon(segs + names[..k])))
  {
    RelNamesFirst(p);
    ComponentsOfRelNames(p);
    SetDirectoryWalks(st, p, false);
    WalkCalm(st, Split(p, '/'));
  }

  // ---------------------------------------------------------------------
  // SetDirectory creating what is missing (FTP.py:330-346)

  /** The names listed in directory `d` of `tree`. */
  function Listed(tree: map<string, seq<string>>, d: string): seq<string>
  {
    if d in tree then tree[d] else []
  }

  /** Every directory below the root is listed in its parent, as on a real
      file system. */
  ghost predicate Linked(tree: map<string, seq<string>>)
  {
    forall segs: seq<string> :: AllNames(segs) && segs != [] && Canon(segs) in tree ==>
      Last(segs) in Listed(tree, Canon(DropLast(segs)))
  }

  /** No name on the walk is a listed file: each listed one is a directory,
      and the walk goes on only below directories that exist (below a
      missing one everything is created). */
  predicate NoFiles(tree: map<string, seq<string>>, base: seq<string>, cs: seq<string>)
    decreases |cs|
  {
    cs == [] ||
    (var d := Canon(base + [cs[0]]);
     (cs[0] in Listed(tree, Canon(base)) ==> d in tree)
     && (d in tree ==> NoFiles(tree, base + [cs[0]], cs[1..])))
  }

  /** The directories a walk of the names `cs` from `base` passes through,
      `base` included. */
  function OnPath(base: seq<string>, cs: seq<string>): set<string>
    decreases |cs|
  {
    {Canon(base)} + (if cs == [] then {} else OnPath(base + [cs[0]], cs[1..]))
  }

  /** `tree2` is `tree` with directories added: none disappears, every
      listing is kept as the start of the new one, and only the directories
      in `dirs` are new or list more names. */
  ghost predicate Grows(tree: map<string, seq<string>>, tree2: map<string, seq<string>>, dirs: set<string>)
  {
    && tree.Keys <= tree2.Keys
    && (forall d :: d in tree ==> tree[d] <= tree2[d])
    && (forall d :: d in tree2 && d !in dirs ==> d in tree && tree2[d] == tree[d])
  }

  /** The walk passes its start and, after the first name, the rest of its path. */
  lemma OnPathStep(base: seq<string>, cs: seq<string>)
    requires cs != []
    ensures {Canon(base), Canon(base + [cs[0]])} + OnPath(base + [cs[0]], cs[1..]) == OnPath(base, cs)
  {
    var rest := cs[1..];
    assert Canon(base + [cs[0]]) in OnPath(base + [cs[0]], rest);
  }

  lemma GrowsCompose(t0: map<string, seq<string>>, t1: map<string, seq<string>>, t2: map<string, seq<string>>,
                     a: set<string>, b: set<string>, c: set<string>)
    requires Grows(t0, t1, a) && Grows(t1, t2, b) && a + b <= c
    ensures Grows(t0, t2, c)
  {
  }

  /** Making directory `dnew` and listing it in `cur` grows the tree at those two. */
  lemma GrowsMakeDir(tree: map<string, seq<string>>, cur: string, dnew: string, c: string)
    requires cur in tree && dnew !in tree
    ensures Grows(tree, tree[dnew := []][cur := tree[cur] + [c]], {cur, dnew})
  {
    var t2 := tree[dnew := []][cur := tree[cur] + [c]];
    forall d | d in tree ensures tree[d] <= t2[d] {
      if d == cur {
        assert tree[cur] <= tree[cur] + [c];
      }
    }
  }

  /** In a linked tree, a name its directory does not list is not a directory. */
  lemma LinkedAbsent(tree: map<string, seq<string>>, segs: seq<string>, c: string)
    requires Linked(tree) && AllNames(segs) && Name(c) && c !in Listed(tree, Canon(segs))
    ensures Canon(segs + [c]) !in tree
  {
    var x := segs + [c];
    assert Last(x) == c && DropLast(x) == segs;
    assert AllNames(x);
  }

  /** Making a directory keeps the tree linked. */
  lemma LinkedMakeDir(tree: map<string, seq<string>>, segs: seq<string>, c: string)
    requires Linked(tree) && AllNames(segs) && Name(c)
    requires Canon(segs) in tree && Canon(segs + [c]) !in tree
    ensures var p := Canon(segs);
      Linked(tree[Canon(segs + [c]) := []][p := tree[p] + [c]])
  {
    var p := Canon(segs);
    var dnew := Canon(segs + [c]);
    var t2 := tree[dnew := []][p := tree[p] + [c]];
    assert AllNames(segs + [c]);
    SegsCanon(segs + [c]);
    forall x: seq<string> | AllNames(x) && x != [] && Canon(x) in t2
      ensures Last(x) in Listed(t2, Canon(DropLast(x)))
    {
      var q := Canon(DropLast(x));
      if Canon(x) == dnew {
        SegsCanon(x);
        assert x == segs + [c];
        assert DropLast(x) == segs;
        assert c in t2[p];
      } else {
        assert Canon(x) in tree;
        assert Last(x) in Listed(tree, q);
        assert q in tree;
        if q == p {
          assert Last(x) in tree[p] + [c];
        } else {
          assert q != dnew;
        }
      }
    }
  }

  /** Past a missing directory, nothing on the rest of the walk is a file. */
  lemma NoFilesBelowNew(tree: map<string, seq<string>>, segs: seq<string>, cs: seq<string>)
    requires Linked(tree) && AllNames(segs) && AllNames(cs) && Listed(tree, Canon(segs)) == []
    ensures NoFiles(tree, segs, cs)
  {
    if cs != [] {
      LinkedAbsent(tree, segs, cs[0]);
    }
  }

  /** Making sure a name exists, creating it when missing: a listed name is
      accepted as it is; a missing one is created. */
  lemma EnsureCreates(st: Session, c: string)
    requires Calm(st) && Name(c) && Linked(st.server.tree) && st.cache in st.server.tree
    ensures var tree := st.server.tree;
      var d := Canon(Segs(st.cache) + [c]);
      Ensure(st, c, true) ==
        if c in tree[st.cache] then Run(Done(true), st)
        else Run(Done(true), st.(server := st.server.(tree := tree[d := []][st.cache := tree[st.cache] + [c]])))
    ensures c !in st.server.tree[st.cache] ==> Canon(Segs(st.cache) + [c]) !in st.server.tree
  {
    NameEntry(c);
    FileExistsHere(st, c);
    CanonicalSegs(st.cache);
    if c !in st.server.tree[st.cache] {
      LinkedAbsent(st.server.tree, Segs(st.cache), c);
      MkdCalm(st, c);
    }
  }

  /** The first half of a step when creating: afterwards the name is listed,
      the session is in step and the tree is still linked. */
  lemma CreateStep(st: Session, c: string)
    requires Calm(st) && Name(c) && Linked(st.server.tree) && st.cache in st.server.tree
    ensures var tree := st.server.tree;
      var e := Ensure(st, c, true);
      var d := Canon(Segs(st.cache) + [c]);
      && e.out == Done(true) && Calm(e.after) && e.after.cache == st.cache
      && Linked(e.after.server.tree) && st.cache in e.after.server.tree
      && Grows(tree, e.after.server.tree, {st.cache, d})
      && c in Entries(e.after.server, st.cache)
      && (c in tree[st.cache] ==> e.after == st)
      && (c !in tree[st.cache] ==> d !in tree && d in e.after.server.tree && Listed(e.after.server.tree, d) == [])
  {
    var tree := st.server.tree;
    CanonicalSegs(st.cache);
    EnsureCreates(st, c);
    if c !in tree[st.cache] {
      NameEntry(c);
      MakeDirWellFormed(st.server, c);
      TargetOfEntry(st.cache, c);
      LinkedMakeDir(tree, Segs(st.cache), c);
      GrowsMakeDir(tree, st.cache, Canon(Segs(st.cache) + [c]), c);
    }
  }

  /** The loop over names creating what is missing: it always returns; it
      returns true only in the directory the names lead to, and does so
      exactly when no name on the way is a file. The tree only grows, and
      only along the walk; directories made on the way stay, also when it
      fails. */
  lemma {:induction false} WalkCreates(st: Session, cs: seq<string>)
    requires Calm(st) && AllNames(cs) && Linked(st.server.tree) && st.cache in st.server.tree
    ensures var r := Walk(st, cs, true);
      && r.out.Done? && Calm(r.after) && Linked(r.after.server.tree)
      && r.after.cache in r.after.server.tree
      && Grows(st.server.tree, r.after.server.tree, OnPath(Segs(st.cache), cs))
      && (r.out.value ==> r.after.cache == Canon(Segs(st.cache) + cs))
      && (r.out.value <==> NoFiles(st.server.tree, Segs(st.cache), cs))
    decreases |cs|, 1
  {
    CanonicalSegs(st.cache);
    var segs := Segs(st.cache);
    if cs == [] {
      assert segs + cs == segs;
    } else {
      var c := cs[0];
      var tree := st.server.tree;
      var d := Canon(segs + [c]);
      assert Name(c);
      CreateStep(st, c);
      var mid := Ensure(st, c, true).after;
      if d in mid.server.tree {
        WalkCreatesEnters(st, cs, mid);
      } else {
        StepCalm(mid, c);
        WalkSecondFails(st, cs, true, mid, mid);
        assert Grows(tree, mid.server.tree, OnPath(segs, cs)) by {
          OnPathStep(segs, cs);
          assert Grows(mid.server.tree, mid.server.tree, {});
          GrowsCompose(tree, mid.server.tree, mid.server.tree, {st.cache, d}, {}, OnPath(segs, cs));
        }
      }
    }
  }

  /** The step of the creating loop whose first name leads into a
      directory, found or just made: the walk goes on from there. */
  lemma {:induction false} WalkCreatesEnters(st: Session, cs: seq<string>, mid: Session)
    requires Calm(st) && AllNames(cs) && Linked(st.server.tree) && st.cache in st.server.tree
    requires cs != [] && Ensure(st, cs[0], true) == Run(Done(true), mid)
    requires var d := Canon(Segs(st.cache) + [cs[0]]);
      && Calm(mid) && mid.cache == st.cache && Linked(mid.server.tree)
      && Grows(st.server.tree, mid.server.tree, {st.cache, d})
      && cs[0] in Entries(mid.server, st.cache)
      && (cs[0] in st.server.tree[st.cache] ==> mid == st)
      && (cs[0] !in st.server.tree[st.cache] ==> d !in st.server.tree && Listed(mid.server.tree, d) == [])
      && d in mid.server.tree
    ensures var r := Walk(st, cs, true);
      && r.out.Done? && Calm(r.after) && Linked(r.after.server.tree)
      && r.after.cache in r.after.server.tree
      && Grows(st.server.tree, r.after.server.tree, OnPath(Segs(st.cache), cs))
      && (r.out.value ==> r.after.cache == Canon(Segs(st.cache) + cs))
      && (r.out.value <==> NoFiles(st.server.tree, Segs(st.cache), cs))
    decreases |cs|, 0
  {
    CanonicalSegs(st.cache);
    var segs := Segs(st.cache);
    var c := cs[0];
    var tree := st.server.tree;
    var d := Canon(segs + [c]);
    assert Name(c);
    assert AllNames(cs[1..]) by {
      forall i | 0 <= i < |cs[1..]| ensures Name(cs[1..][i]) {
        assert cs[1..][i] == cs[i + 1];
      }
    }
    StepCalm(mid, c);
    var s2 := At(mid, d);
    WalkPasses(st, cs, true, mid, s2);
    WalkCreates(s2, cs[1..]);
    AppendHead(segs, cs);
    if c !in tree[st.cache] {
      NoFilesBelowNew(mid.server.tree, segs + [c], cs[1..]);
    }
    var r := Walk(s2, cs[1..], true);
    assert Grows(tree, r.after.server.tree, OnPath(segs, cs)) by {
      OnPathStep(segs, cs);
      GrowsCompose(tree, mid.server.tree, r.after.server.tree,
                   {st.cache, d}, OnPath(segs + [c], cs[1..]), OnPath(segs, cs));
    }
  }

  /** SetDirectory on a canonical absolute path, creating what is missing:
      it returns true only in that directory, which then exists unless the
      shortcut trusted a stale cache; past the shortcut it returns true
      exactly when no name on the way from the root is a file. The tree only
      grows, and only along the path. */
  lemma SetDirectoryCreates(st: Session, p: string)
    requires Calm(st) && Canonical(p) && Linked(st.server.tree)
    ensures var r := SetDirectory(st, p, true);
      && r.out.Done? && Calm(r.after)
      && Grows(st.server.tree, r.after.server.tree, OnPath([], Segs(p)))
      && (r.out.value ==> r.after.cache == p)
      && (r.out.value && (p != st.cache || st.cache in st.server.tree) ==> p in r.after.server.tree)
      && (NoFiles(st.server.tree, [], Segs(p)) ==> r.out.value)
      && (p != st.cache && !NoFiles(st.server.tree, [], Segs(p)) ==> !r.out.value)
  {
    if p != st.cache {
      SetDirectoryCreatesBelow(st, p);
    } else {
      assert SetDirectory(st, p, true) == Run(Done(true), st);
    }
  }

  /** SetDirectoryCreates past the shortcut. */
  lemma SetDirectoryCreatesBelow(st: Session, p: string)
    requires Calm(st) && Canonical(p) && Linked(st.server.tree) && p != st.cache
    ensures var r := SetDirectory(st, p, true);
      && r.out.Done? && Calm(r.after)
      && Grows(st.server.tree, r.after.server.tree, OnPath([], Segs(p)))
      && (r.out.value ==> r.after.cache == p && p in r.after.server.tree)
      && (r.out.value <==> NoFiles(st.server.tree, [], Segs(p)))
  {
    CanonicalSegs(p);
    var segs := Segs(p);
    var root := At(st, "/");
    SetDirectoryFromRoot(st, p, true);
    WalkCreates(root, segs);
    assert [] + segs == segs;
  }

  /** Past the shortcut, SetDirectory of a canonical absolute path goes to
      the root and walks its segments from there. */
  lemma SetDirectoryFromRoot(st: Session, p: string, create: bool)
    requires Calm(st) && Canonical(p) && p != st.cache
    ensures SetDirectory(st, p, create) == Walk(At(st, "/"), Segs(p), create)
    ensures Calm(At(st, "/")) && Segs(At(st, "/").cache) == [] && "/" in st.server.tree
  {
    CanonicalSegs(p);
    var segs := Segs(p);
    var root := At(st, "/");
    ComponentsOfCanonical(p);
    SetDirectoryWalks(st, p, create);
    RootStep(st, create);
    WalkPasses(st, ["/"] + segs, create, st, root);
    assert (["/"] + segs)[1..] == segs;
    assert Segs("/") == [];
  }

  // ---------------------------------------------------------------------
  // Reconnect (FTP.py:45-66)

  /** Past the credentials and the connection, a positive reply to cwd("/")
      leads to the replay of the cached path from the root. */
  lemma ReconnectReplays(st: Session, rep: Reply, mid: Session)
    requires "host" in st.creds && "ID" in st.creds && "PW" in st.creds && !Fails(st.faults)
    requires Send(st.(connected := true, server := Login(st.server), faults := Rest(st.faults)), CwdVerb("/"))
      == Run(Done(rep), mid)
    requires CwdSucceeded(Msg(rep))
    ensures var sd := SetDirectory(mid.(cache := "/"), mid.cache, false);
      Reconnect(st) == (if sd.out.Done? then Run(Done(true), sd.after) else Run(Fail(sd.out), sd.after))
  {
  }

  /** With no fault ahead, a reconnect logs in, goes to the root and replays
      the cached path: it ends connected in the deepest directory of that
      path that still exists, and restores the session exactly when the
      whole path still exists. */
  lemma ReconnectRestores(st: Session)
    requires st.faults == [] && Synced(st)
    requires "host" in st.creds && "ID" in st.creds && "PW" in st.creds
    ensures var segs := Segs(st.cache);
      var k := Reach(st.server.tree, [], segs);
      Reconnect(st) == Run(Done(true), At(st.(connected := true), Canon(segs[..k])))
    ensures Reach(st.server.tree, [], Segs(st.cache)) == |Segs(st.cache)| ==>
      Reconnect(st) == Run(Done(true), st.(connected := true))
  {
    var s1 := st.(connected := true, server := Login(st.server), faults := Rest(st.faults));
    var s0 := st.(connected := true);
    SendCalm(s1, CwdVerb("/"));
    ResolveRoot(st.server.home);
    var rep := ChangeDir(Login(st.server), "/").0;
    var mid := At(s0, "/").(cache := st.cache);
    assert Send(s1, CwdVerb("/")) == Run(Done(rep), mid);
    ReconnectReplays(st, rep, mid);
    var s3 := At(s0, "/");
    assert mid.(cache := "/") == s3;
    assert Calm(s3) by { assert Canonical("/"); }
    SetDirectoryCalm(s3, st.cache);
    CanonicalSegs(st.cache);
    var segs := Segs(st.cache);
    if st.cache == "/" {
      assert segs == [];
      assert Canon(segs[..0]) == "/";
    }
    assert segs[..|segs|] == segs;
  }

  // ---------------------------------------------------------------------
  // Nlst (FTP.py:561-570)

  /** Listing a canonical directory that can be reached: the walk ends
      there and the result is its entries, without "." and "..". */
  lemma NlstCalm(st: Session, d: string)
    requires Calm(st) && Canonical(d) && Reach(st.server.tree, [], Segs(d)) == |Segs(d)|
    ensures Nlst(st, d) == Run(Done(Entries(st.server, d)), At(st, d))
  {
    SetDirectoryCalm(st, d);
    CanonicalSegs(d);
    assert Segs(d)[..|Segs(d)|] == Segs(d);
    var s2 := At(st, d);
    assert SetDirectory(st, d, false) == Run(Done(true), s2);
    assert Calm(s2);
    SendCalm(s2, NlstVerb);
    var es := Entries(st.server, d);
    assert forall i :: 0 <= i < |es| ==> Entry(es[i]);
    VisibleOfListing(es);
  }

  /** Listing "" lists the current directory and moves nowhere. */
  lemma NlstHere(st: Session)
    requires Calm(st)
    ensures Nlst(st, "") == Run(Done(Entries(st.server, st.cache)), st)
  {
    SendCalm(st, NlstVerb);
    var es := Entries(st.server, st.cache);
    assert forall i :: 0 <= i < |es| ==> Entry(es[i]);
    VisibleOfListing(es);
  }

  // ---------------------------------------------------------------------
  // DeleteDir (FTP.py:179-206)

  /** DeleteDir of a name the current directory does not list counts as
      deleted and changes nothing, so repeating it changes nothing either. */
  lemma DeleteDirMissing(st: Session, d: string)
    requires Calm(st) && Name(d) && d !in Entries(st.server, st.cache)
    ensures DeleteDir(st, d) == Run(Done(true), st)
  {
    NameEntry(d);
    FileExistsHere(st, d);
    assert d != "/" by { assert '/' in "/"; }
  }

  /** A top-level absolute path resolves to its one name, wherever the
      server stands. */
  lemma TargetOfTop(cwd: string, x: string)
    requires Entry(x)
    ensures Target(cwd, "/" + x) == [x] && Canon([x]) == "/" + x
  {
    SplitNoSep(x, '/');
    SplitConcatEmpty(x, '/');
    assert "/" + x == ['/'] + x;
    assert Normalize([], ["", x]) == Normalize([], [x]);
    assert Normalize([], [x]) == Normalize([x], []);
    assert Canon([x]) == "/" + Join([x], '/');
  }

  /** The server's rmd of an empty directory other than the root. */
  lemma RemoveDirFound(sv: Server, n: string, segs: seq<string>)
    requires segs == Target(sv.cwd, n) && segs != [] && Canon(segs) != "/"
    requires Canon(segs) in sv.tree && sv.tree[Canon(segs)] == []
    requires Canon(DropLast(segs)) in sv.tree && Canon(DropLast(segs)) != Canon(segs)
    ensures var res := RemoveDir(sv, n);
      var parent := Canon(DropLast(segs));
      && res.0.Text? && Completed(res.0.msg)
      && res.1 == sv.(tree := (sv.tree - {Canon(segs)})[parent := Without(sv.tree[parent], Last(segs))])
  {
    var msg := "250 " + "The directory was successfully removed";
    assert msg[..4] == "250 ";
  }

  lemma TopNotRoot(x: string)
    requires Entry(x)
    ensures Canon([x]) != "/"
  {
    TargetOfTop("/", x);
    assert |Canon([x])| > 1;
  }

  /** The server's rmd of an empty top-level directory. */
  lemma RemoveDirTopLevel(sv: Server, x: string)
    requires Entry(x) && Canon([x]) in sv.tree && sv.tree[Canon([x])] == [] && "/" in sv.tree
    ensures var res := RemoveDir(sv, "/" + x);
      && res.0.Text? && Completed(res.0.msg)
      && res.1 == sv.(tree := (sv.tree - {Canon([x])})["/" := Without(sv.tree["/"], x)])
  {
    TargetOfTop(sv.cwd, x);
    assert DropLast([x]) == [] && Last([x]) == x;
    TopNotRoot(x);
    assert Canon([]) == "/";
    RemoveDirFound(sv, "/" + x, [x]);
  }

  /** `tree2` is `tree` after deleting, from directory `cur`, the names
      `fs`: no directory appears or disappears, other directories keep
      their listings, and `cur` loses exactly the files among `fs`. */
  ghost predicate Swept(tree: map<string, seq<string>>, tree2: map<string, seq<string>>, cur: string, fs: seq<string>)
  {
    && tree2.Keys == tree.Keys
    && (forall d :: d in tree && d != cur ==> tree2[d] == tree[d])
    && (forall y :: y in Listed(tree2, cur) <==>
          y in Listed(tree, cur) && (y !in fs || Canon(Segs(cur) + [y]) in tree))
  }

  /** Deleting one name, then the rest, is deleting them all. */
  lemma SweptCompose(t0: map<string, seq<string>>, t1: map<string, seq<string>>, t2: map<string, seq<string>>,
                     cur: string, fs: seq<string>)
    requires fs != [] && Swept(t0, t1, cur, [fs[0]]) && Swept(t1, t2, cur, fs[1..])
    ensures Swept(t0, t2, cur, fs)
  {
    assert fs == [fs[0]] + fs[1..];
    forall y ensures y in Listed(t2, cur) <==>
        y in Listed(t0, cur) && (y !in fs || Canon(Segs(cur) + [y]) in t0) {
      assert y in [fs[0]] <==> y == fs[0];
    }
  }

  /** One name of the loop in DeleteDir: it is deleted when it is a file and
      stays otherwise. */
  lemma DeleteOneCalm(st: Session, f: string)
    requires Calm(st) && Entry(f)
    ensures var r := DeleteFile(st, f);
      && r.out.Done? && Calm(r.after) && r.after.cache == st.cache
      && Swept(st.server.tree, r.after.server.tree, st.cache, [f])
  {
    DeleteFileCalm(st, f);
    DeleteFileSynced(st, f);
    var tree := st.server.tree;
    if f in Entries(st.server, st.cache) && Canon(Segs(st.cache) + [f]) !in tree {
      SweptFile(tree, st.cache, f);
    } else {
      SweptNothing(tree, st.cache, f);
    }
  }

  lemma SweptFile(tree: map<string, seq<string>>, cur: string, f: string)
    requires cur in tree && f in tree[cur] && Canon(Segs(cur) + [f]) !in tree
    ensures Swept(tree, tree[cur := Without(tree[cur], f)], cur, [f])
  {
    WithoutMembers(tree[cur], f);
    forall y ensures y in Listed(tree[cur := Without(tree[cur], f)], cur) <==>
        y in Listed(tree, cur) && (y !in [f] || Canon(Segs(cur) + [y]) in tree) {
      assert y in [f] <==> y == f;
    }
  }

  lemma SweptNothing(tree: map<string, seq<string>>, cur: string, f: string)
    requires !(f in Listed(tree, cur) && Canon(Segs(cur) + [f]) !in tree)
    ensures Swept(tree, tree, cur, [f])
  {
    forall y ensures y in Listed(tree, cur) <==>
        y in Listed(tree, cur) && (y !in [f] || Canon(Segs(cur) + [y]) in tree) {
      assert y in [f] <==> y == f;
    }
  }

  /** The loop in DeleteDir over the names `fs`: every listed file among them
      leaves the listing of the current directory, everything else stays. */
  lemma {:induction false} DeleteEachCalm(st: Session, fs: seq<string>)
    requires Calm(st) && forall i :: 0 <= i < |fs| ==> Entry(fs[i])
    ensures var r := DeleteEach(st, fs);
      && r.out.Done? && Calm(r.after) && r.after.cache == st.cache
      && Swept(st.server.tree, r.after.server.tree, st.cache, fs)
    decreases |fs|
  {
    if fs == [] {
      assert Swept(st.server.tree, st.server.tree, st.cache, fs);
    } else {
      DeleteOneCalm(st, fs[0]);
      var df := DeleteFile(st, fs[0]);
      DeleteEachCalm(df.after, fs[1..]);
      DeleteEachStep(st, fs, df.after);
      SweptCompose(st.server.tree, df.after.server.tree, DeleteEach(st, fs).after.server.tree, st.cache, fs);
    }
  }

  lemma DeleteEachStep(st: Session, fs: seq<string>, mid: Session)
    requires fs != [] && DeleteFile(st, fs[0]).out.Done? && DeleteFile(st, fs[0]).after == mid
    ensures DeleteEach(st, fs) == DeleteEach(mid, fs[1..])
  {
  }

  lemma ServeRmd(sv: Server, n: string)
    ensures Serve(sv, RmdVerb(n)) == RemoveDir(sv, n)
  {
  }

  /** rmd of the empty top-level directory the client stands in. */
  lemma RmdTopFinal(s2: Session, x: string)
    requires Calm(s2) && Entry(x) && s2.cache == Canon([x])
    requires Canon([x]) in s2.server.tree && s2.server.tree[Canon([x])] == []
    ensures var res := Serve(s2.server, RmdVerb("/" + x));
      && Completed(Msg(res.0)) && Calm(s2.(server := res.1))
      && res.1.tree.Keys == s2.server.tree.Keys - {Canon([x])}
      && x !in res.1.tree["/"]
  {
    var sv := s2.server;
    ServeRmd(sv, "/" + x);
    RemoveDirTopLevel(sv, x);
    RemoveDirWellFormed(sv, "/" + x);
    var sv2 := RemoveDir(sv, "/" + x).1;
    assert WellFormed(sv2) && sv2.cwd == sv.cwd;
    assert Synced(s2.(server := sv2));
    assert sv2.tree["/"] == Without(sv.tree["/"], x);
    WithoutMembers(sv.tree["/"], x);
    var t1 := sv.tree - {Canon([x])};
    TopNotRoot(x);
    UpdateKeeps(t1, "/", Without(sv.tree["/"], x));
  }

  lemma UpdateKeeps<K, V>(m: map<K, V>, k: K, v: V)
    requires k in m
    ensures m[k := v].Keys == m.Keys
  {
  }

  /** The last step of DeleteDir once the look-up, the listing and the loop
      have gone through without faults: the server's rmd decides. */
  lemma DeleteDirUnfolds(st: Session, d: string, s1: Session, es: seq<string>, s2: Session)
    requires !Blank(d) && d != "/"
    requires FileExists(st, d) == Run(Done(true), st)
    requires Nlst(st, d) == Run(Done(es), s1)
    requires DeleteEach(s1, es).out.Done? && DeleteEach(s1, es).after == s2
    requires s2.faults == [] && s2.connected
    ensures var res := Serve(s2.server, RmdVerb(d));
      DeleteDir(st, d) == Run(Done(Completed(Msg(res.0))), s2.(server := res.1))
  {
    var res := Serve(s2.server, RmdVerb(d));
    RetryingCalm(s2, RmdVerb(d));
    assert Retrying(s2, RmdVerb(d)) == Run(Done(Got(res.0)), s2.(server := res.1));
  }

  lemma NoneLeft<T>(s: seq<T>)
    ensures (forall y :: y !in s) ==> s == []
  {
    if s != [] {
      assert s[0] in s;
    }
  }

  /** After the loop of DeleteDir over a directory that holds only files,
      that directory is empty. */
  lemma SweptEmpty(st: Session, x: string)
    requires Calm(st) && Entry(x) && st.cache == Canon([x]) && st.cache in st.server.tree
    requires forall e :: e in st.server.tree[st.cache] ==> Canon([x, e]) !in st.server.tree
    ensures var de := DeleteEach(st, st.server.tree[st.cache]);
      && de.out.Done? && Calm(de.after) && de.after.cache == st.cache
      && de.after.server.tree.Keys == st.server.tree.Keys
      && de.after.server.tree[st.cache] == []
      && (forall k :: k in st.server.tree && k != st.cache ==> de.after.server.tree[k] == st.server.tree[k])
  {
    var es := st.server.tree[st.cache];
    assert forall i :: 0 <= i < |es| ==> Entry(es[i]);
    DeleteEachCalm(st, es);
    TargetOfTop("/", x);
    SplitNoSep(x, '/');
    SweptAll(st.server.tree, DeleteEach(st, es).after.server.tree, st.cache, x);
  }

  /** Sweeping every name of a directory that holds only files empties it. */
  lemma SweptAll(tree: map<string, seq<string>>, tree2: map<string, seq<string>>, cur: string, x: string)
    requires cur in tree && Segs(cur) == [x] && Swept(tree, tree2, cur, tree[cur])
    requires forall e :: e in tree[cur] ==> Canon([x, e]) !in tree
    ensures tree2[cur] == []
  {
    forall y ensures y !in tree2[cur] {
      if y in tree[cur] {
        assert [x] + [y] == [x, y];
      }
    }
    NoneLeft(tree2[cur]);
  }

  /** An absolute top-level name is looked up in the current directory. */
  lemma FileExistsTop(st: Session, x: string)
    requires Calm(st) && Entry(x)
    ensures FileExists(st, "/" + x) == Run(Done(x in Listing(st)), st)
  {
    FileExistsTopLevelLooksHere(st, x);
    FileExistsHere(st, x);
  }

  /** A top-level directory listed in the root is reached from the root. */
  lemma ReachTop(tree: map<string, seq<string>>, x: string)
    requires "/" in tree && x in tree["/"] && Canon([x]) in tree
    ensures Reach(tree, [], [x]) == 1
  {
    assert Canon([]) == "/";
    assert [] + [x] == [x];
    assert [x][1..] == [];
  }

  /** DeleteDir from the root of a top-level directory that holds only
      files: the files are deleted one by one, then the directory. The
      client is left inside the directory it removed. */
  lemma DeleteDirTopLevel(st: Session, x: string)
    requires Calm(st) && st.cache == "/" && Name(x)
    requires x in st.server.tree["/"] && Canon([x]) in st.server.tree
    requires forall e :: e in st.server.tree[Canon([x])] ==> Canon([x, e]) !in st.server.tree
    ensures var r := DeleteDir(st, "/" + x);
      var d := Canon([x]);
      && r.out == Done(true) && Calm(r.after) && r.after.cache == d
      && r.after.server.tree.Keys == st.server.tree.Keys - {d}
      && x !in r.after.server.tree["/"]
  {
    var d := Canon([x]);
    var tree := st.server.tree;
    DeleteDirTopLooks(st, x);
    var s1 := At(st, d);
    SweptEmpty(s1, x);
    var s2 := DeleteEach(s1, tree[d]).after;
    DeleteDirUnfolds(st, d, s1, tree[d], s2);
    RmdTopFinal(s2, x);
  }

  /** The shortcut of SetDirectory trusts the cache: after DeleteDirTopLevel
      the cache names the removed directory, and SetDirectory of that path,
      even with creation, returns true and leaves it missing. */
  lemma SetDirectoryTrustsStaleCache(st: Session, x: string)
    requires Calm(st) && st.cache == "/" && Name(x)
    requires x in st.server.tree["/"] && Canon([x]) in st.server.tree
    requires forall e :: e in st.server.tree[Canon([x])] ==> Canon([x, e]) !in st.server.tree
    ensures var s2 := DeleteDir(st, "/" + x).after;
      var d := Canon([x]);
      && SetDirectory(s2, d, true) == Run(Done(true), s2)
      && d !in s2.server.tree && Calm(s2)
  {
    DeleteDirTopLevel(st, x);
    assert Canon([x])[0] == '/';
  }

  /** The server refuses rmd of a directory that is missing or still lists
      names, and changes nothing. */
  lemma RmdRefused(sv: Server, t: string)
    requires var d := Canon(Target(sv.cwd, t)); d in sv.tree ==> sv.tree[d] != []
    ensures var res := Serve(sv, RmdVerb(t));
      res.1 == sv && !Completed(Msg(res.0))
  {
    var msg := "550 " + "Can't remove directory: No such file or directory";
    assert msg[0] == '5' && "250 "[0] == '2';
  }

  /** DeleteDir whose final rmd the server refuses returns false, with the
      session the loop left. */
  lemma DeleteDirRefused(st: Session, d: string, s1: Session, es: seq<string>, s2: Session)
    requires !Blank(d) && d != "/"
    requires FileExists(st, d) == Run(Done(true), st)
    requires Nlst(st, d) == Run(Done(es), s1)
    requires DeleteEach(s1, es).out.Done? && DeleteEach(s1, es).after == s2
    requires s2.faults == [] && s2.connected
    requires var k := Canon(Target(s2.server.cwd, d)); k in s2.server.tree ==> s2.server.tree[k] != []
    ensures DeleteDir(st, d) == Run(Done(false), s2)
  {
    RmdRefused(s2.server, d);
    DeleteDirUnfolds(st, d, s1, es, s2);
    assert s2.(server := s2.server) == s2;
  }

  /** Sweeping leaves a subdirectory listed. */
  lemma SweptKeepsDirectory(tree: map<string, seq<string>>, tree2: map<string, seq<string>>, cur: string,
                            fs: seq<string>, e: string)
    requires Swept(tree, tree2, cur, fs) && cur in tree && e in tree[cur] && Canon(Segs(cur) + [e]) in tree
    ensures cur in tree2 && e in tree2[cur]
  {
    assert e in Listed(tree2, cur);
  }

  /** Sweeping every name of a directory that holds only files empties it. */
  lemma SweptOnlyFiles(tree: map<string, seq<string>>, tree2: map<string, seq<string>>, cur: string)
    requires cur in tree && Swept(tree, tree2, cur, tree[cur])
    requires forall e :: e in tree[cur] ==> Canon(Segs(cur) + [e]) !in tree
    ensures tree2[cur] == []
  {
    forall y ensures y !in tree2[cur] {
      assert y in Listed(tree2, cur) <==> y in Listed(tree, cur) && (y !in tree[cur] || Canon(Segs(cur) + [y]) in tree);
    }
    NoneLeft(tree2[cur]);
  }

  /** DeleteDir of a directory that holds a subdirectory, as written: the
      loop calls DeleteFile on every listed name, DeleteFile refuses the
      subdirectory, so the files go but the subdirectory stays, the rmd is
      refused, and the result is false with the directory still there. */
  lemma DeleteDirLeavesSubdirectory(st: Session, x: string, e: string)
    requires Calm(st) && st.cache == "/" && Name(x)
    requires x in st.server.tree["/"] && Canon([x]) in st.server.tree
    requires e in st.server.tree[Canon([x])] && Canon([x, e]) in st.server.tree
    ensures var r := DeleteDir(st, "/" + x);
      var d := Canon([x]);
      && r.out == Done(false) && Calm(r.after) && r.after.cache == d
      && Swept(st.server.tree, r.after.server.tree, d, st.server.tree[d])
      && d in r.after.server.tree && e in r.after.server.tree[d]
  {
    var d := Canon([x]);
    var tree := st.server.tree;
    assert Canon(Segs(d) + [e]) in tree by {
      assert AllNames([x]);
      SegsCanon([x]);
      assert Segs(d) + [e] == [x, e];
    }
    DeleteDirTopSweeps(st, x);
    var s2 := DeleteEach(At(st, d), tree[d]).after;
    SweptKeepsDirectory(tree, s2.server.tree, d, tree[d], e);
    assert DeleteDir(st, "/" + x) == Run(Done(false), s2) by {
      RmdRefused(s2.server, d);
      RetryingCalm(s2, RmdVerb(d));
      assert s2.(server := s2.server) == s2;
    }
  }

  /** DeleteDir("/x") from the root up to its final rmd: the listing moves
      into "/x" and the loop sweeps its names. */
  lemma DeleteDirTopSweeps(st: Session, x: string)
    requires Calm(st) && st.cache == "/" && Name(x)
    requires x in st.server.tree["/"] && Canon([x]) in st.server.tree
    ensures var d := Canon([x]);
      var de := DeleteEach(At(st, d), st.server.tree[d]);
      && d == "/" + x && Canon(Target(d, d)) == d
      && de.out.Done? && Calm(de.after) && de.after.cache == d
      && Swept(st.server.tree, de.after.server.tree, d, st.server.tree[d])
      && DeleteDir(st, d) == Completion(Retrying(de.after, RmdVerb(d)))
  {
    var d := Canon([x]);
    TargetOfTop(d, x);
    var es := st.server.tree[d];
    DeleteDirTopLooks(st, x);
    assert forall i :: 0 <= i < |es| ==> Entry(es[i]);
    DeleteEachCalm(At(st, d), es);
    DeleteDirRemoves(st, d, st, es, At(st, d), DeleteEach(At(st, d), es).after);
  }

  /** Listing a directory named in the current one moves into it. */
  lemma NlstName(st: Session, n: string)
    requires Calm(st) && Name(n) && n in Entries(st.server, st.cache)
    requires Canon(Segs(st.cache) + [n]) in st.server.tree
    ensures var d := Canon(Segs(st.cache) + [n]);
      && Nlst(st, n) == Run(Done(st.server.tree[d]), At(st, d))
      && Calm(At(st, d)) && Segs(d) == Segs(st.cache) + [n]
  {
    var d := Canon(Segs(st.cache) + [n]);
    NameEntry(n);
    SplitNoSep(n, '/');
    CanonicalSegs(st.cache);
    assert Reach(st.server.tree, Segs(st.cache), [n]) == 1 by {
      assert [n][1..] == [];
    }
    SetDirectoryRelativeCalm(st, n);
    assert [n][..1] == [n];
    StepCalm(st, n);
    var s2 := At(st, d);
    SendCalm(s2, NlstVerb);
    var es := st.server.tree[d];
    assert forall i :: 0 <= i < |es| ==> Entry(es[i]);
    VisibleOfListing(es);
  }

  /** DeleteDir of a relative name, as written: the listing moves into the
      directory, so the final rmd of the same relative name looks one level
      too deep and is refused, after the files are already gone. The result
      is false and the directory stays, now empty. */
  lemma DeleteDirRelativeMisses(st: Session, n: string)
    requires Calm(st) && Name(n) && n in Entries(st.server, st.cache)
    requires var d := Canon(Segs(st.cache) + [n]);
      && d in st.server.tree && Canon(Segs(d) + [n]) !in st.server.tree
      && forall e :: e in st.server.tree[d] ==> Canon(Segs(d) + [e]) !in st.server.tree
    ensures var r := DeleteDir(st, n);
      var d := Canon(Segs(st.cache) + [n]);
      && r.out == Done(false) && Calm(r.after) && r.after.cache == d
      && d in r.after.server.tree && r.after.server.tree[d] == []
  {
    var d := Canon(Segs(st.cache) + [n]);
    var tree := st.server.tree;
    NameEntry(n);
    assert !Blank(n) && n != "/" by {
      assert '/' in "/";
    }
    FileExistsHere(st, n);
    NlstName(st, n);
    var s1 := At(st, d);
    var es := tree[d];
    assert forall i :: 0 <= i < |es| ==> Entry(es[i]);
    DeleteEachCalm(s1, es);
    var s2 := DeleteEach(s1, es).after;
    SweptOnlyFiles(tree, s2.server.tree, d);
    assert Canon(Target(s2.server.cwd, n)) == Canon(Segs(d) + [n]) by {
      TargetOfEntry(d, n);
    }
    DeleteDirRefused(st, n, s1, es, s2);
  }

  /** The first half of DeleteDirTopLevel: the directory is found, and the
      listing walks into it and returns its names. */
  lemma DeleteDirTopLooks(st: Session, x: string)
    requires Calm(st) && st.cache == "/" && Name(x)
    requires x in st.server.tree["/"] && Canon([x]) in st.server.tree
    ensures var d := Canon([x]);
      && !Blank(d) && d != "/" && Entry(x)
      && FileExists(st, d) == Run(Done(true), st)
      && Nlst(st, d) == Run(Done(st.server.tree[d]), At(st, d))
      && Calm(At(st, d))
  {
    var d := Canon([x]);
    NameEntry(x);
    TargetOfTop("/", x);
    assert !Blank(d) && d != "/" by {
      assert d[1..] == x;
      assert !IsSpace(d[|d| - 1]);
    }
    FileExistsTop(st, x);
    assert x in Listing(st);
    NlstTop(st, x);
  }

  /** Listing a top-level directory listed in the root, from the root. */
  lemma NlstTop(st: Session, x: string)
    requires Calm(st) && st.cache == "/" && Name(x)
    requires x in st.server.tree["/"] && Canon([x]) in st.server.tree
    ensures Nlst(st, Canon([x])) == Run(Done(st.server.tree[Canon([x])]), At(st, Canon([x])))
    ensures Calm(At(st, Canon([x])))
  {
    var d := Canon([x]);
    assert AllNames([x]);
    SegsCanon([x]);
    ReachTop(st.server.tree, x);
    NlstCalm(st, d);
  }

  // ---------------------------------------------------------------------
  // The cache rule against the server

  /** The head `os.path.split` gives for a path with one trailing "/". */
  lemma PosixHeadTrailingSlash(x: string)
    requires Canonical(x) && x != "/"
    ensures PosixHead(x + "/") == x
  {
    CanonicalEnd(x);
    var p := x + "/";
    assert LastSlashEnd(p) == |p|;
    assert p[..|p|] == p;
    assert p[1] != '/' by {
      CanonicalSegs(x);
      CanonBelowRoot(Segs(x));
    }
    assert !AllSlashes(p);
    RStripOneSlash(x);
  }

  /** From a calm session, CWD to a target the server accepts moves the
      server there, applies the cache rule and checks with PWD. */
  lemma CwdAccepted(st: Session, t: string)
    requires Calm(st) && t != "" && t != st.cache && Resolve(st.cache, t) in st.server.tree
    ensures var s := At(st, Resolve(st.cache, t)).(cache := NewCurpath(st.cache, t));
      var q := Pwd(s);
      Cwd(st, t) == (if q.out.Done? then Run(Done(true), q.after) else Run(Fail(q.out), q.after))
  {
    ComparePathsEquivalence(st.cache, st.cache, st.cache);
    PwdCalm(st);
    RetryingCalm(st, CwdVerb(t));
  }

  /** A name with one trailing "/": the server goes one level down, and the
      cache rule appends the argument with its "/". */
  lemma TrailingSlashTarget(cur: string, a: string)
    requires Canonical(cur) && Name(a)
    ensures Resolve(cur, a + "/") == Canon(Segs(cur) + [a])
    ensures NewCurpath(cur, a + "/") == Canon(Segs(cur) + [a]) + "/"
  {
    TrailingSlashResolve(cur, a);
    TrailingSlashCache(cur, a);
  }

  lemma TrailingSlashResolve(cur: string, a: string)
    requires Name(a)
    ensures Resolve(cur, a + "/") == Canon(Segs(cur) + [a])
  {
    var segs := Segs(cur);
    var t := a + "/";
    assert t == a + ['/'] + "";
    SplitConcat(a, "", '/');
    SplitNoSep(a, '/');
    assert Split("", '/') == [""];
    assert Split(t, '/') == [a, ""];
    assert t[0] != '/' by { assert t[0] == a[0] && a[0] in a; }
    assert Normalize(segs, [a, ""]) == Normalize(segs + [a], [""]);
    assert Normalize(segs + [a], [""]) == Normalize(segs + [a], []);
  }

  lemma TrailingSlashCache(cur: string, a: string)
    requires Canonical(cur) && Name(a)
    ensures NewCurpath(cur, a + "/") == Canon(Segs(cur) + [a]) + "/"
  {
    CanonicalSegs(cur);
    var segs := Segs(cur);
    var t := a + "/";
    assert t[0] != '/' by { assert t[0] == a[0] && a[0] in a; }
    assert t != ".." by { assert |".."| == 2; if |a| == 1 { assert t[1] == '/'; } }
    if segs == [] {
      assert NewCurpath(cur, t) == "/" + t;
      assert Canon([a]) == "/" + a;
    } else {
      JoinSnoc(segs, a, '/');
      assert Canon(segs + [a]) == cur + "/" + a;
      assert cur != "/" by { assert |Canon(segs)| > 1; }
      assert NewCurpath(cur, t) == cur + "/" + t;
    }
  }

  /** CWD to a name with a trailing "/" succeeds, and the cache keeps the
      "/": ComparePaths lets it pass. */
  lemma CwdTrailingSlash(st: Session, a: string)
    requires Calm(st) && Name(a)
    requires Canon(Segs(st.cache) + [a]) in st.server.tree
    ensures var x := Canon(Segs(st.cache) + [a]);
      Cwd(st, a + "/") == Run(Done(true), At(st, x).(cache := x + "/"))
  {
    var x := Canon(Segs(st.cache) + [a]);
    TrailingSlashTarget(st.cache, a);
    assert a + "/" != st.cache by {
      assert (a + "/")[0] == a[0] && a[0] != '/' by { assert a[0] in a; }
      assert st.cache[0] == '/';
    }
    CwdAccepted(st, a + "/");
    CanonicalSegs(st.cache);
    SegsCanon(Segs(st.cache) + [a]);
    CanonBelowRoot(Segs(st.cache) + [a]);
    CanonicalEnd(x);
    ComparePathsTrailingSlash(x);
    PwdCalm(At(st, x).(cache := x + "/"));
  }

  /** With the server at x and the cache at x + "/", CWD("..") moves the
      server to the parent of x but the cache only to x, and PWD halts. */
  lemma ParentAfterTrailingSlashHalts(s: Session, x: string)
    requires s.faults == [] && s.connected && WellFormed(s.server)
    requires Canonical(x) && x != "/" && s.server.cwd == x && s.cache == x + "/"
    requires Resolve(x, "..") in s.server.tree
    ensures Cwd(s, "..").out == Halted
  {
    var up := Resolve(x, "..");
    assert Pwd(s) == Run(Done(x), s) by {
      CanonicalEnd(x);
      ComparePathsTrailingSlash(x);
      PwdCalm(s);
    }
    assert x != ".." by { assert x[0] == '/'; }
    var rep := Serve(s.server, CwdVerb("..")).0;
    var after := s.(server := s.server.(cwd := up));
    assert Retrying(s, CwdVerb("..")) == Run(Done(Got(rep)), after) && CwdSucceeded(Msg(rep)) by {
      RetryingCalm(s, CwdVerb(".."));
    }
    assert NewCurpath(x + "/", "..") == x by {
      PosixHeadTrailingSlash(x);
      assert x + "/" != "/";
    }
    assert Pwd(after.(cache := x)).out == Halted by {
      AgreeParent(x);
      ComparePathsCanonical(x, up);
      assert x != up by {
        CanonicalSegs(x);
        NewCurpathParent(Segs(x));
        CanonBelowRoot(Segs(x));
        SegsCanon(DropLast(Segs(x)));
      }
      PwdCalm(after.(cache := x));
    }
    CwdMoves(s, "..", x, rep, after);
  }

  /** CWD once the server has accepted the move: the cache takes the new path
      and the outcome is that of the follow-up PWD. */
  lemma CwdMoves(st: Session, t: string, w: string, rep: Reply, after: Session)
    requires t != "" && w != t && Pwd(st) == Run(Done(w), st)
    requires Retrying(st, CwdVerb(t)) == Run(Done(Got(rep)), after) && CwdSucceeded(Msg(rep))
    ensures var q := Pwd(after.(cache := NewCurpath(after.cache, t)));
      Cwd(st, t) == (if q.out.Done? then Run(Done(true), q.after) else Run(Fail(q.out), q.after))
  {
  }

  /** With the server at x and the cache at x + "/", CWD of a name n below x
      caches x + "//" + n while the server is at x + "/" + n, and PWD halts. */
  lemma NameAfterTrailingSlashHalts(s: Session, x: string, n: string)
    requires s.faults == [] && s.connected && WellFormed(s.server)
    requires Canonical(x) && x != "/" && s.server.cwd == x && s.cache == x + "/"
    requires Name(n) && Canon(Segs(x) + [n]) in s.server.tree
    ensures NewCurpath(x + "/", n) == x + "//" + n
    ensures Cwd(s, n).out == Halted
  {
    var y := Canon(Segs(x) + [n]);
    assert Pwd(s) == Run(Done(x), s) by {
      CanonicalEnd(x);
      ComparePathsTrailingSlash(x);
      PwdCalm(s);
    }
    assert x != n by {
      assert n[0] != '/' by { assert n[0] in n; }
      assert x[0] == '/';
    }
    var rep := Serve(s.server, CwdVerb(n)).0;
    var after := s.(server := s.server.(cwd := y));
    assert Retrying(s, CwdVerb(n)) == Run(Done(Got(rep)), after) && CwdSucceeded(Msg(rep)) by {
      CanonicalSegs(x);
      NameEntry(n);
      TargetOfEntry(x, n);
      RetryingCalm(s, CwdVerb(n));
    }
    assert NewCurpath(x + "/", n) == x + "//" + n by {
      NameAfterSlash(x, n);
    }
    assert Pwd(after.(cache := x + "//" + n)).out == Halted by {
      CanonSnoc(x, n);
      DoubledSlashDiffers(x, n);
      PwdCalm(after.(cache := x + "//" + n));
    }
    CwdMoves(s, n, x, rep, after);
  }

  /** A name after a cache that ends in "/" is appended behind a second "/". */
  lemma NameAfterSlash(x: string, n: string)
    requires x != "" && Name(n)
    ensures NewCurpath(x + "/", n) == x + "//" + n
  {
    assert n[0] != '/' by { assert n[0] in n; }
    assert x + "/" != "/" by { assert |x + "/"| >= 2; }
  }

  /** The canonical path of a name below a directory other than the root. */
  lemma CanonSnoc(x: string, n: string)
    requires Canonical(x) && x != "/" && Name(n)
    ensures Canon(Segs(x) + [n]) == x + "/" + n
  {
    CanonicalSegs(x);
    assert Segs(x) != [] by { assert Canon([]) == "/"; }
    JoinSnoc(Segs(x), n, '/');
  }

  /** A doubled "/" before a name is not the path ComparePaths accepts. */
  lemma DoubledSlashDiffers(x: string, n: string)
    requires Name(n)
    ensures !ComparePaths(x + "//" + n, x + "/" + n)
  {
    assert n[|n| - 1] != '/' by { assert n[|n| - 1] in n; }
    assert (x + "//" + n)[|x + "//" + n| - 1] == n[|n| - 1];
    assert (x + "/" + n)[|x + "/" + n| - 1] == n[|n| - 1];
    assert |WithSlash(x + "//" + n)| != |WithSlash(x + "/" + n)|;
  }

  /** CWD("a/") and then CWD("b") halts in PWD when "a/b" exists. */
  lemma TrailingSlashThenNameHalts(st: Session, a: string, b: string)
    requires Calm(st) && Name(a) && Name(b)
    requires var x := Canon(Segs(st.cache) + [a]);
      x in st.server.tree && Canon(Segs(x) + [b]) in st.server.tree
    ensures var x := Canon(Segs(st.cache) + [a]);
      var r := Cwd(st, a + "/");
      && r.out == Done(true) && r.after.cache == x + "/"
      && NewCurpath(r.after.cache, b) == x + "//" + b && Cwd(r.after, b).out == Halted
  {
    CwdTrailingSlash(st, a);
    CanonicalSegs(st.cache);
    var x := Canon(Segs(st.cache) + [a]);
    SegsCanon(Segs(st.cache) + [a]);
    CanonBelowRoot(Segs(st.cache) + [a]);
    NameAfterTrailingSlashHalts(At(st, x).(cache := x + "/"), x, b);
  }

  /** The two together: CWD("a/") and then CWD("..") halts in PWD. */
  lemma TrailingSlashThenParentHalts(st: Session, a: string)
    requires Calm(st) && Name(a) && st.cache in st.server.tree
    requires Canon(Segs(st.cache) + [a]) in st.server.tree
    ensures var r := Cwd(st, a + "/");
      r.out == Done(true) && Cwd(r.after, "..").out == Halted
  {
    CwdTrailingSlash(st, a);
    CanonicalSegs(st.cache);
    var segs := Segs(st.cache);
    var x := Canon(segs + [a]);
    SegsCanon(segs + [a]);
    CanonBelowRoot(segs + [a]);
    AgreeParent(x);
    NewCurpathParent(segs + [a]);
    assert DropLast(segs + [a]) == segs;
    ParentAfterTrailingSlashHalts(At(st, x).(cache := x + "/"), x);
  }
}
