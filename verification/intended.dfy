/** The operations of FTP.py as their comments describe them, where the code
    as written does something else.

    DeleteDir (FTP.py:177-178) should remove a directory together with the
    files and the empty directories it holds. As written, the loop calls
    DeleteFile on every listed name, which the server refuses for a
    directory, and the final rmd sends the argument again after the listing
    has moved the client into the directory, so a relative name is looked up
    one level too deep (Behaviour.DeleteDirLeavesSubdirectory,
    Behaviour.DeleteDirRelativeMisses). The corrected operation removes with
    rmd each name DeleteFile refuses, and removes the directory by the
    absolute path the client computes for it before listing it.

    FileExists (FTP.py:272-273) should accept a name with a complete path,
    and PathExists (FTP.py:243-244) should say whether an absolute or
    relative path exists. As written, FileExists("/a") looks in the current
    directory, and FileExists("a/b/c") ends up looking in "a"
    (Behaviour.FileExistsTopLevelLooksHere,
    Behaviour.FileExistsLooksInWrongDirectory,
    Behaviour.PathExistsAbsoluteLooksInWrongDirectory). The corrected
    operations look the last part up in the directory the path names,
    computed from the cached path before the client moves. */
module Intended {
  import opened Text
  import opened Paths
  import opened Replies
  import opened Remote
  import opened Engine
  import opened Consistency
  import opened Behaviour

  /** One name of the corrected loop: DeleteFile, then rmd when DeleteFile
      refuses the name. The answers are ignored, as in the loop as written. */
  function DeleteEntry(st: Session, f: string): (r: Run<()>)
    ensures Later(st, r.after)
  {
    var df := DeleteFile(st, f);
    if !df.out.Done? then Run(Fail(df.out), df.after)
    else if df.out.value then Run(Done(()), df.after)
    else
      var rd := Retrying(df.after, RmdVerb(f));
      if rd.out.Done? then Run(Done(()), rd.after) else Run(Fail(rd.out), rd.after)
  }

  /** The corrected loop over the listed names. */
  function DeleteContents(st: Session, names: seq<string>): (r: Run<()>)
    decreases |names|
    ensures Later(st, r.after)
  {
    if names == [] then Run(Done(()), st)
    else
      var e := DeleteEntry(st, names[0]);
      if !e.out.Done? then Run(Fail(e.out), e.after)
      else DeleteContents(e.after, names[1..])
  }

  /** The corrected DeleteDir: as written up to the listing, then the
      corrected loop, then rmd of the absolute path computed before the
      listing moved the client. */
  function DeleteDirIntended(st: Session, d: string): (r: Run<bool>)
    ensures Later(st, r.after)
    ensures Blank(d) || d == "/" ==> r == Run(Halted, st)
  {
    if Blank(d) then Run(Halted, st)
    else if d == "/" then Run(Halted, st)
    else
      var fe := FileExists(st, d);
      if !fe.out.Done? then Run(Fail(fe.out), fe.after)
      else if !fe.out.value then Run(Done(true), fe.after)
      else
        assert Blank("");
        var whole := NewCurpath(fe.after.cache, d);
        var n := Nlst(fe.after, d);
        if !n.out.Done? then Run(Fail(n.out), n.after)
        else
          var de := DeleteContents(n.after, n.out.value);
          if !de.out.Done? then Run(Fail(de.out), de.after)
          else Completion(Retrying(de.after, RmdVerb(whole)))
  }

  // ---------------------------------------------------------------------
  // FileExists and PathExists as their comments describe them

  /** The directory that holds the last part of a path with "/": the root
      when the directory part is empty ("/a"), otherwise the directory part
      taken from the current directory, computed before the client moves. */
  function Holder(cur: string, t: string): string
    requires '/' in t
  {
    var d := DirPart(t);
    if d == "" then "/" else NewCurpath(cur, d)
  }

  /** The look-up of FileExists, done in the directory `whole`: CWD there,
      and list it only when the CWD succeeded. */
  function LookUpIn(st: Session, whole: string, leaf: string): (r: Run<bool>)
    ensures Later(st, r.after)
  {
    var c := Cwd(st, whole);
    if !c.out.Done? then Run(Fail(c.out), c.after)
    else if !c.out.value then Run(Done(false), c.after)
    else LookUp(c.after, leaf)
  }

  /** The corrected FileExists (FTP.py:272-273: a file name, possibly with a
      complete path): the last part is looked up in the directory the path
      names. */
  function FileExistsIntended(st: Session, f: string): (r: Run<bool>)
    ensures Later(st, r.after)
    ensures f == "/" ==> r == Run(Done(true), st)
  {
    if f == "/" then Run(Done(true), st)
    else if '/' !in f then LookUp(st, f)
    else LookUpIn(st, Holder(st.cache, f), LastPart(f))
  }

  /** The corrected PathExists (FTP.py:243-244): does the absolute or
      relative path exist. */
  function PathExistsIntended(st: Session, p: string): (r: Run<bool>)
    ensures Later(st, r.after)
  {
    var d := Strip(p);
    if |d| == 0 then Run(Done(false), st) else FileExistsIntended(st, d)
  }

  /** What the comments promise: the root always exists, and any other path
      exists when its last segment is listed in the directory that holds it. */
  predicate Found(sv: Server, segs: seq<string>)
  {
    segs == [] || Last(segs) in Entries(sv, Canon(DropLast(segs)))
  }

  /** For a canonical path below the root, the holder is the path without
      its last segment, and the last part is that segment. */
  lemma HolderAbsolute(cur: string, t: string)
    requires Canonical(t) && t != "/"
    ensures '/' in t
    ensures var segs := Target(cur, t);
      && segs != [] && Holder(cur, t) == Canon(DropLast(segs)) && Canonical(Holder(cur, t))
      && LastPart(t) == Last(segs) && Name(Last(segs))
  {
    TargetOfCanonical(cur, t);
    CanonicalSegs(t);
    assert t[0] == '/';
    var names := Segs(t);
    assert t == "" + "/" + t[1..];
    SplitConcat("", t[1..], '/');
    var parts := Split(t, '/');
    assert parts == [""] + names;
    assert Last(parts) == Last(names);
    if |names| == 1 {
      assert DropLast(parts) == [""];
      assert DropLast(names) == [];
    } else {
      assert DropLast(parts) == [""] + DropLast(names);
      JoinAppend([""], DropLast(names), '/');
      assert DirPart(t) == Canon(DropLast(names));
      SegsCanon(DropLast(names));
    }
  }

  /** For a relative path of names with "/", the holder is the current
      directory followed by all names but the last. */
  lemma HolderRelative(cur: string, t: string)
    requires Canonical(cur) && RelNames(t) && '/' in t
    ensures var segs := Target(cur, t);
      && segs != [] && Holder(cur, t) == Canon(DropLast(segs)) && Canonical(Holder(cur, t))
      && LastPart(t) == Last(segs) && Name(Last(segs))
  {
    var names := Split(t, '/');
    var d := DirPart(t);
    assert d != "" && RelNames(d) && Split(d, '/') == DropLast(names) && LastPart(t) == Last(names) by {
      RelativeDirPart(t);
    }
    assert Target(cur, t) == Segs(cur) + names by {
      RelNamesFirst(t);
      NormalizeNames(Segs(cur), names);
    }
    assert Holder(cur, t) == Canon(Segs(cur) + DropLast(names)) && Canonical(Holder(cur, t)) by {
      AgreeRelative(cur, d);
      RelNamesFirst(d);
      NormalizeNames(Segs(cur), DropLast(names));
    }
    assert DropLast(Segs(cur) + names) == Segs(cur) + DropLast(names);
  }

  /** The directory part of a relative path of names with a "/" is itself
      such a path, made of all its names but the last, which is LastPart. */
  lemma RelativeDirPart(t: string)
    requires RelNames(t) && '/' in t
    ensures var names := Split(t, '/');
      && DirPart(t) != "" && RelNames(DirPart(t))
      && Split(DirPart(t), '/') == DropLast(names) && LastPart(t) == Last(names)
  {
    var names := Split(t, '/');
    SplitLastPiece(t, '/');
    var dir := DropLast(names);
    var d := DirPart(t);
    assert forall i :: 0 <= i < |dir| ==> Name(dir[i]);
    SplitJoin(dir, '/');
    assert Split(d, '/') == dir;
    assert d != "" by {
      assert Split("", '/') == [""];
      assert Name(dir[0]);
    }
  }

  /** A listing of the current directory answers for a name in it. */
  lemma LookUpCalm(st: Session, leaf: string)
    requires Calm(st) && Name(leaf)
    ensures LookUp(st, leaf) == Run(Done(leaf in Entries(st.server, st.cache)), st)
  {
    assert leaf != "/" by { assert '/' in "/"; }
    FileExistsHere(st, leaf);
    ListingName(st, leaf);
  }

  /** The look-up in a canonical directory answers whether it lists the
      name, and changes no directory. */
  lemma LookUpInCalm(st: Session, whole: string, leaf: string)
    requires Calm(st) && Canonical(whole) && Name(leaf)
    ensures var r := LookUpIn(st, whole, leaf);
      && r.out == Done(leaf in Entries(st.server, whole))
      && Calm(r.after) && r.after.server.tree == st.server.tree
  {
    AgreeAbsolute(st.cache, whole);
    CwdCalm(st, whole);
    var c := Cwd(st, whole);
    if c.out.value {
      LookUpCalm(c.after, leaf);
    }
  }

  /** The corrected FileExists answers, for "/" and every plain path, whether
      the path exists, and changes no directory. */
  lemma FileExistsIntendedAnswers(st: Session, p: string)
    requires Calm(st) && PlainPath(p)
    ensures var r := FileExistsIntended(st, p);
      && r.out == Done(Found(st.server, Target(st.cache, p)))
      && Calm(r.after) && r.after.server.tree == st.server.tree
  {
    if p == "/" {
      TargetOfCanonical(st.cache, p);
    } else if '/' !in p {
      SplitNoSep(p, '/');
      assert Name(Split(p, '/')[0]);
      NameEntry(p);
      TargetOfEntry(st.cache, p);
      LookUpCalm(st, p);
    } else {
      if Canonical(p) {
        HolderAbsolute(st.cache, p);
      } else {
        HolderRelative(st.cache, p);
      }
      LookUpInCalm(st, Holder(st.cache, p), LastPart(p));
    }
  }

  /** The corrected PathExists gives the same answer for a plain path. */
  lemma PathExistsIntendedAnswers(st: Session, p: string)
    requires Calm(st) && PlainPath(p)
    ensures var r := PathExistsIntended(st, p);
      && r.out == Done(Found(st.server, Target(st.cache, p)))
      && Calm(r.after) && r.after.server.tree == st.server.tree
  {
    assert PathExistsIntended(st, p) == FileExistsIntended(st, p) by {
      PlainPathStripped(p);
    }
    FileExistsIntendedAnswers(st, p);
  }

  // ---------------------------------------------------------------------
  // The tree after the corrected loop

  /** The paths below `cur` named by those of `fs` that `cur` lists. */
  function Kids(tree: map<string, seq<string>>, cur: string, fs: seq<string>): set<string>
  {
    set y | y in fs && y in Listed(tree, cur) :: Canon(Segs(cur) + [y])
  }

  /** Every name of `fs` that `cur` lists is a file or an empty directory. */
  predicate Removable(tree: map<string, seq<string>>, cur: string, fs: seq<string>)
  {
    forall y :: y in fs && y in Listed(tree, cur) && Canon(Segs(cur) + [y]) in tree ==>
      tree[Canon(Segs(cur) + [y])] == []
  }

  /** `tree2` is `tree` after removing, from directory `cur`, the names
      `fs`: the directories among them are gone, `cur` lists exactly the
      names not in `fs`, and every other directory keeps its listing. */
  ghost predicate Cleared(tree: map<string, seq<string>>, tree2: map<string, seq<string>>, cur: string, fs: seq<string>)
  {
    && tree2.Keys == tree.Keys - Kids(tree, cur, fs)
    && (forall k :: k in tree2 && k != cur ==> tree2[k] == tree[k])
    && (forall y :: y in Listed(tree2, cur) <==> y in Listed(tree, cur) && y !in fs)
  }

  /** A path below a canonical directory is longer than it. */
  lemma Below(cur: string, y: string)
    requires Canonical(cur) && Entry(y)
    ensures |Canon(Segs(cur) + [y])| > |cur|
  {
    assert Blank("");
    CanonicalSegs(cur);
    CanonLonger(Segs(cur), y);
  }

  /** Nothing `fs` names below `cur` is `cur` or shorter. */
  lemma KidsBelow(tree: map<string, seq<string>>, cur: string, fs: seq<string>)
    requires Canonical(cur) && forall i :: 0 <= i < |fs| ==> Entry(fs[i])
    ensures forall k :: k in Kids(tree, cur, fs) ==> |k| > |cur|
  {
    forall k | k in Kids(tree, cur, fs) ensures |k| > |cur| {
      var y :| y in fs && y in Listed(tree, cur) && k == Canon(Segs(cur) + [y]);
      Below(cur, y);
    }
  }

  lemma ClearedAbsent(tree: map<string, seq<string>>, cur: string, f: string)
    requires f !in Listed(tree, cur)
    ensures Cleared(tree, tree, cur, [f])
  {
    assert Kids(tree, cur, [f]) == {};
    forall y ensures y in Listed(tree, cur) <==> y in Listed(tree, cur) && y !in [f] {
      assert y in [f] <==> y == f;
    }
  }

  lemma ClearedFile(tree: map<string, seq<string>>, cur: string, f: string)
    requires cur in tree && f in tree[cur] && Canon(Segs(cur) + [f]) !in tree
    ensures Cleared(tree, tree[cur := Without(tree[cur], f)], cur, [f])
  {
    assert Kids(tree, cur, [f]) == {Canon(Segs(cur) + [f])};
    WithoutMembers(tree[cur], f);
    forall y ensures y in Listed(tree[cur := Without(tree[cur], f)], cur) <==> y in Listed(tree, cur) && y !in [f] {
      assert y in [f] <==> y == f;
    }
  }

  lemma ClearedDirectory(tree: map<string, seq<string>>, cur: string, f: string)
    requires cur in tree && f in tree[cur] && Canon(Segs(cur) + [f]) in tree && Canon(Segs(cur) + [f]) != cur
    ensures var k := Canon(Segs(cur) + [f]);
      Cleared(tree, (tree - {k})[cur := Without(tree[cur], f)], cur, [f])
  {
    var k := Canon(Segs(cur) + [f]);
    assert Kids(tree, cur, [f]) == {k};
    WithoutMembers(tree[cur], f);
    var t2 := (tree - {k})[cur := Without(tree[cur], f)];
    assert t2.Keys == tree.Keys - {k};
    forall y ensures y in Listed(t2, cur) <==> y in Listed(tree, cur) && y !in [f] {
      assert y in [f] <==> y == f;
    }
  }

  /** Removing one name, then the rest, is removing them all. */
  lemma ClearedCompose(t0: map<string, seq<string>>, t1: map<string, seq<string>>, t2: map<string, seq<string>>,
                       cur: string, fs: seq<string>)
    requires fs != [] && Cleared(t0, t1, cur, [fs[0]]) && Cleared(t1, t2, cur, fs[1..])
    ensures Cleared(t0, t2, cur, fs)
  {
    var f, rest := fs[0], fs[1..];
    assert fs == [f] + rest;
    var a, b, c := Kids(t0, cur, [f]), Kids(t1, cur, rest), Kids(t0, cur, fs);
    forall k | k in c ensures k in a + b {
      var y :| y in fs && y in Listed(t0, cur) && k == Canon(Segs(cur) + [y]);
      if y == f {
        assert y in [f];
      } else {
        assert y in rest && y in Listed(t1, cur);
      }
    }
    forall k | k in a + b ensures k in c {
      if k in a {
        var y :| y in [f] && y in Listed(t0, cur) && k == Canon(Segs(cur) + [y]);
        assert y in fs;
      } else {
        var y :| y in rest && y in Listed(t1, cur) && k == Canon(Segs(cur) + [y]);
        assert y in fs && y in Listed(t0, cur);
      }
    }
    forall y ensures y in Listed(t2, cur) <==> y in Listed(t0, cur) && y !in fs {
      assert y in [f] <==> y == f;
    }
  }

  /** What was removable stays removable for the rest of the names. */
  lemma RemovableRest(t0: map<string, seq<string>>, t1: map<string, seq<string>>, cur: string, fs: seq<string>)
    requires fs != [] && Removable(t0, cur, fs) && Cleared(t0, t1, cur, [fs[0]])
    requires Canonical(cur) && forall i :: 0 <= i < |fs| ==> Entry(fs[i])
    ensures Removable(t1, cur, fs[1..])
  {
    forall y | y in fs[1..] && y in Listed(t1, cur) && Canon(Segs(cur) + [y]) in t1
      ensures t1[Canon(Segs(cur) + [y])] == []
    {
      assert y in fs;
      var i :| 0 <= i < |fs| && fs[i] == y;
      Below(cur, y);
    }
  }

  // ---------------------------------------------------------------------
  // The corrected loop without faults

  /** The server's rmd of an empty directory named in its current one. */
  lemma RmdEmptyHere(sv: Server, f: string)
    requires Canonical(sv.cwd) && Entry(f) && sv.cwd in sv.tree
    requires Canon(Segs(sv.cwd) + [f]) in sv.tree && sv.tree[Canon(Segs(sv.cwd) + [f])] == []
    ensures var k := Canon(Segs(sv.cwd) + [f]);
      var res := Serve(sv, RmdVerb(f));
      && Completed(Msg(res.0)) && k != sv.cwd
      && res.1 == sv.(tree := (sv.tree - {k})[sv.cwd := Without(sv.tree[sv.cwd], f)])
  {
    var segs := Target(sv.cwd, f);
    TargetOfEntry(sv.cwd, f);
    Below(sv.cwd, f);
    ServeRmd(sv, f);
    RemoveDirFound(sv, f, segs);
  }

  /** One name of the corrected loop: a listed file is deleted, a listed
      empty directory is removed, and an unlisted name changes nothing. */
  lemma DeleteEntryCalm(st: Session, f: string)
    requires Calm(st) && st.cache in st.server.tree && Entry(f)
    requires var k := Canon(Segs(st.cache) + [f]);
      f in st.server.tree[st.cache] && k in st.server.tree ==> st.server.tree[k] == []
    ensures var r := DeleteEntry(st, f);
      && r.out == Done(()) && Calm(r.after) && r.after.cache == st.cache
      && Cleared(st.server.tree, r.after.server.tree, st.cache, [f])
  {
    var tree := st.server.tree;
    var cur := st.cache;
    var k := Canon(Segs(cur) + [f]);
    DeleteFileCalm(st, f);
    DeleteOneCalm(st, f);
    if f !in tree[cur] {
      ClearedAbsent(tree, cur, f);
    } else if k !in tree {
      ClearedFile(tree, cur, f);
    } else {
      RmdEmptyHere(st.server, f);
      RetryingCalm(st, RmdVerb(f));
      ServeWellFormed(st.server, RmdVerb(f));
      ClearedDirectory(tree, cur, f);
    }
  }

  lemma DeleteContentsStep(st: Session, fs: seq<string>, mid: Session)
    requires fs != [] && DeleteEntry(st, fs[0]) == Run(Done(()), mid)
    ensures DeleteContents(st, fs) == DeleteContents(mid, fs[1..])
  {
  }

  /** The corrected loop: the files and the empty directories among the
      names leave the current directory, and nothing else changes. */
  lemma {:induction false} DeleteContentsCalm(st: Session, fs: seq<string>)
    requires Calm(st) && st.cache in st.server.tree
    requires forall i :: 0 <= i < |fs| ==> Entry(fs[i])
    requires Removable(st.server.tree, st.cache, fs)
    ensures var r := DeleteContents(st, fs);
      && r.out == Done(()) && Calm(r.after) && r.after.cache == st.cache
      && Cleared(st.server.tree, r.after.server.tree, st.cache, fs)
    decreases |fs|
  {
    var tree := st.server.tree;
    if fs == [] {
      assert Kids(tree, st.cache, fs) == {};
    } else {
      var f := fs[0];
      assert f in fs;
      DeleteEntryCalm(st, f);
      var mid := DeleteEntry(st, f).after;
      assert st.cache in mid.server.tree by {
        Below(st.cache, f);
      }
      RemovableRest(tree, mid.server.tree, st.cache, fs);
      DeleteContentsCalm(mid, fs[1..]);
      DeleteContentsStep(st, fs, mid);
      ClearedCompose(tree, mid.server.tree, DeleteContents(mid, fs[1..]).after.server.tree, st.cache, fs);
    }
  }

  // ---------------------------------------------------------------------
  // The corrected DeleteDir without faults

  /** Past the look-up, the listing and the loop, the corrected DeleteDir
      ends with the retried rmd of the path computed at the start. */
  lemma DeleteDirIntendedUnfolds(st: Session, d: string, es: seq<string>, listed: Session, swept: Session)
    requires !Blank(d) && d != "/" && d != ""
    requires FileExists(st, d) == Run(Done(true), st) && Nlst(st, d) == Run(Done(es), listed)
    requires DeleteContents(listed, es) == Run(Done(()), swept)
    ensures DeleteDirIntended(st, d) == Completion(Retrying(swept, RmdVerb(NewCurpath(st.cache, d))))
  {
  }

  /** The server's rmd, by its absolute path, of an empty directory whose
      parent exists. */
  lemma RmdEmptyAbsolute(sv: Server, ps: seq<string>, n: string)
    requires AllNames(ps + [n]) && Canon(ps) in sv.tree
    requires Canon(ps + [n]) in sv.tree && sv.tree[Canon(ps + [n])] == []
    ensures var d := Canon(ps + [n]);
      var res := Serve(sv, RmdVerb(d));
      && Completed(Msg(res.0)) && d != Canon(ps)
      && res.1 == sv.(tree := (sv.tree - {d})[Canon(ps) := Without(sv.tree[Canon(ps)], n)])
  {
    var segs := ps + [n];
    var d := Canon(segs);
    SegsCanon(segs);
    TargetOfCanonical(sv.cwd, d);
    assert DropLast(segs) == ps && Last(segs) == n;
    assert Name(segs[|ps|]);
    CanonLonger(ps, n);
    ServeRmd(sv, d);
    RemoveDirFound(sv, d, segs);
  }

  /** The corrected DeleteDir of a name in the current directory, up to its
      final rmd: the listing moves into the directory and the corrected loop
      clears it. */
  lemma DeleteDirIntendedClears(st: Session, n: string)
    requires Calm(st) && Name(n) && n in Entries(st.server, st.cache)
    requires var d := Canon(Segs(st.cache) + [n]);
      d in st.server.tree && Removable(st.server.tree, d, st.server.tree[d])
    ensures var d := Canon(Segs(st.cache) + [n]);
      var de := DeleteContents(At(st, d), st.server.tree[d]);
      && de.out == Done(()) && Calm(de.after) && de.after.cache == d
      && Cleared(st.server.tree, de.after.server.tree, d, st.server.tree[d])
      && DeleteDirIntended(st, n) == Completion(Retrying(de.after, RmdVerb(d)))
  {
    var tree := st.server.tree;
    var cur := st.cache;
    var d := Canon(Segs(cur) + [n]);
    var es := tree[d];
    NameEntry(n);
    assert !Blank(n) && n != "/" by {
      assert '/' in "/";
    }
    FileExistsHere(st, n);
    assert n in Behaviour.Listing(st);
    NlstName(st, n);
    assert NewCurpath(cur, n) == d by {
      AgreeRelative(cur, n);
      TargetOfEntry(cur, n);
    }
    var s1 := At(st, d);
    assert forall i :: 0 <= i < |es| ==> Entry(es[i]);
    DeleteContentsCalm(s1, es);
    DeleteDirIntendedUnfolds(st, n, es, s1, DeleteContents(s1, es).after);
  }

  /** Removing the emptied directory `d` from `tree2` and its name `n` from
      the listing of its parent `cur`. */
  lemma RemovedFromParent(tree: map<string, seq<string>>, t2: map<string, seq<string>>, kids: set<string>,
                          cur: string, d: string, n: string)
    requires t2.Keys == tree.Keys - kids && cur in t2 && d in t2 && cur != d && t2[cur] == tree[cur]
    requires forall k :: k in t2 && k != d ==> t2[k] == tree[k]
    ensures var t3 := (t2 - {d})[cur := Without(t2[cur], n)];
      && t3.Keys == tree.Keys - {d} - kids
      && (forall y :: y in t3[cur] <==> y in tree[cur] && y != n)
      && (forall k :: k in t3 && k != cur ==> t3[k] == tree[k])
  {
    var t3 := (t2 - {d})[cur := Without(t2[cur], n)];
    assert t3.Keys == t2.Keys - {d};
    WithoutMembers(tree[cur], n);
  }

  /** The cleared directory is empty, and it and its parent are still there. */
  lemma ClearedLeavesEmpty(tree: map<string, seq<string>>, t2: map<string, seq<string>>, cur: string, n: string)
    requires Canonical(cur) && Name(n) && cur in tree
    requires var d := Canon(Segs(cur) + [n]);
      && d in tree && (forall i :: 0 <= i < |tree[d]| ==> Entry(tree[d][i]))
      && Cleared(tree, t2, d, tree[d])
    ensures var d := Canon(Segs(cur) + [n]);
      && cur in t2 && d in t2 && t2[d] == [] && cur != d && t2[cur] == tree[cur]
  {
    var d := Canon(Segs(cur) + [n]);
    var es := tree[d];
    NameEntry(n);
    assert AllNames(Segs(cur) + [n]) by {
      CanonicalSegs(cur);
    }
    SegsCanon(Segs(cur) + [n]);
    Below(cur, n);
    KidsBelow(tree, d, es);
    forall y ensures y !in t2[d] {
      assert y in Listed(t2, d) <==> y in Listed(tree, d) && y !in es;
    }
    NoneLeft(t2[d]);
  }

  /** The final rmd of the corrected DeleteDir, by the absolute path of
      the cleared directory. */
  lemma RmdCleared(s2: Session, tree: map<string, seq<string>>, n: string, cur: string)
    requires Calm(s2) && Canonical(cur) && Name(n) && cur in tree
    requires var d := Canon(Segs(cur) + [n]);
      && s2.cache == d && d in tree && (forall i :: 0 <= i < |tree[d]| ==> Entry(tree[d][i]))
      && Cleared(tree, s2.server.tree, d, tree[d])
    ensures var d := Canon(Segs(cur) + [n]);
      var r := Completion(Retrying(s2, RmdVerb(d)));
      && r.out == Done(true) && Calm(r.after) && r.after.cache == d
      && r.after.server.tree.Keys == tree.Keys - {d} - Kids(tree, d, tree[d])
      && cur in r.after.server.tree
      && (forall y :: y in r.after.server.tree[cur] <==> y in tree[cur] && y != n)
      && (forall k :: k in r.after.server.tree && k != cur ==> r.after.server.tree[k] == tree[k])
  {
    var d := Canon(Segs(cur) + [n]);
    ClearedLeavesEmpty(tree, s2.server.tree, cur, n);
    RemovedFromParent(tree, s2.server.tree, Kids(tree, d, tree[d]), cur, d, n);
    CanonicalSegs(cur);
    RmdEmptyAbsolute(s2.server, Segs(cur), n);
    RetryingCalm(s2, RmdVerb(d));
    ServeWellFormed(s2.server, RmdVerb(d));
  }

  /** The intended behaviour of DeleteDir: for a directory named in the
      current one that holds only files and empty directories, it removes
      them all and then the directory itself, returns True, and changes
      nothing else. The client is left in the removed directory, where the
      listing put it. */
  lemma DeleteDirIntendedRemoves(st: Session, n: string)
    requires Calm(st) && Name(n) && n in Entries(st.server, st.cache)
    requires var d := Canon(Segs(st.cache) + [n]);
      d in st.server.tree && Removable(st.server.tree, d, st.server.tree[d])
    ensures var r := DeleteDirIntended(st, n);
      var tree := st.server.tree;
      var d := Canon(Segs(st.cache) + [n]);
      && r.out == Done(true) && Calm(r.after) && r.after.cache == d
      && r.after.server.tree.Keys == tree.Keys - {d} - Kids(tree, d, tree[d])
      && st.cache in r.after.server.tree
      && (forall y :: y in r.after.server.tree[st.cache] <==> y in tree[st.cache] && y != n)
      && (forall k :: k in r.after.server.tree && k != st.cache ==> r.after.server.tree[k] == tree[k])
  {
    var tree := st.server.tree;
    var d := Canon(Segs(st.cache) + [n]);
    DeleteDirIntendedClears(st, n);
    var s2 := DeleteContents(At(st, d), tree[d]).after;
    assert forall i :: 0 <= i < |tree[d]| ==> Entry(tree[d][i]);
    RmdCleared(s2, tree, n, st.cache);
  }

  /** The corrected DeleteDir of an absolute path "/x" from the root: the
      same removal as for the name "x". */
  lemma DeleteDirIntendedRemovesTop(st: Session, x: string)
    requires Calm(st) && st.cache == "/" && Name(x) && x in st.server.tree["/"]
    requires var d := Canon([x]);
      d in st.server.tree && Removable(st.server.tree, d, st.server.tree[d])
    ensures var r := DeleteDirIntended(st, "/" + x);
      var tree := st.server.tree;
      var d := Canon([x]);
      && r.out == Done(true) && Calm(r.after) && r.after.cache == d
      && r.after.server.tree.Keys == tree.Keys - {d} - Kids(tree, d, tree[d])
      && "/" in r.after.server.tree
      && (forall y :: y in r.after.server.tree["/"] <==> y in tree["/"] && y != x)
      && (forall k :: k in r.after.server.tree && k != "/" ==> r.after.server.tree[k] == tree[k])
  {
    var tree := st.server.tree;
    var d := Canon([x]);
    var s2 := DeleteContents(At(st, d), tree[d]).after;
    assert DeleteDirIntended(st, "/" + x) == Completion(Retrying(s2, RmdVerb(d)))
      && Calm(s2) && s2.cache == d && Cleared(tree, s2.server.tree, d, tree[d]) by {
      DeleteDirIntendedClearsTop(st, x);
    }
    assert forall i :: 0 <= i < |tree[d]| ==> Entry(tree[d][i]);
    assert Canon(Segs("/") + [x]) == d by {
      assert Segs("/") == [];
      assert [] + [x] == [x];
    }
    RmdCleared(s2, tree, x, "/");
  }

  /** The corrected DeleteDir("/x") from the root, up to its final rmd. */
  lemma DeleteDirIntendedClearsTop(st: Session, x: string)
    requires Calm(st) && st.cache == "/" && Name(x) && x in st.server.tree["/"]
    requires var d := Canon([x]);
      d in st.server.tree && Removable(st.server.tree, d, st.server.tree[d])
    ensures var d := Canon([x]);
      var de := DeleteContents(At(st, d), st.server.tree[d]);
      && de.out == Done(()) && Calm(de.after) && de.after.cache == d
      && Cleared(st.server.tree, de.after.server.tree, d, st.server.tree[d])
      && DeleteDirIntended(st, "/" + x) == Completion(Retrying(de.after, RmdVerb(d)))
  {
    var tree := st.server.tree;
    var d := Canon([x]);
    var es := tree[d];
    DeleteDirTopLooks(st, x);
    TargetOfTop("/", x);
    NewCurpathAbsolute("/", d);
    var s1 := At(st, d);
    assert forall i :: 0 <= i < |es| ==> Entry(es[i]);
    DeleteContentsCalm(s1, es);
    DeleteDirIntendedUnfolds(st, d, es, s1, DeleteContents(s1, es).after);
  }
}
