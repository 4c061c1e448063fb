/** The invariant the cache engine exists to keep: between operations, the
    cached path is the server's current directory. From such a session, and
    with arguments of the shape the client is written for, no operation
    reaches an `assert False`, and every operation that returns leaves the
    cache in step again, through any number of transport faults, reconnects
    and replays. */
module Consistency {
  import opened Text
  import opened Paths
  import opened Replies
  import opened Remote
  import opened Engine

  /** The cache is the server's directory, in canonical form, and the server is well formed. */
  predicate Synced(st: Session)
  {
    st.cache == st.server.cwd && Canonical(st.cache) && WellFormed(st.server)
  }

  /** The session right after the server answered `v` with `rep`, starting in
      step: only a successful cwd has moved the server ahead of the cache, and
      pwd answered with the cached path. */
  predicate Landed(st: Session, v: Verb, rep: Reply)
  {
    && Canonical(st.cache) && WellFormed(st.server)
    && st.server.cwd == (if v.CwdVerb? && CwdSucceeded(Msg(rep)) then Resolve(st.cache, v.dir) else st.cache)
    && (v.PwdVerb? ==> rep == Text(st.cache))
  }

  /** No halt, and a returned value leaves the session in step. */
  predicate Safe<T>(r: Run<T>)
  {
    !r.out.Halted? && (r.out.Done? ==> Synced(r.after))
  }

  /** An argument `FileExists` is written for: "/", a bare name, or a plain path. */
  predicate FileArg(s: string)
  {
    s == "/" || '/' !in s || PlainPath(s)
  }

  /** A component SetDirectory can walk without breaking the cache: the root,
      or a stripped name without "/" other than ".". */
  predicate ComponentOk(c: string)
  {
    c == "/" || ('/' !in c && Strip(c) == c && c != ".")
  }

  predicate Walkable(cs: seq<string>)
  {
    forall i :: 0 <= i < |cs| ==> ComponentOk(cs[i])
  }

  /** No component of the path is ".". */
  predicate PlanOk(p: string)
  {
    forall i :: 0 <= i < |Plan(p)| ==> Plan(p)[i] != "."
  }

  // ---------------------------------------------------------------------
  // Argument shapes

  lemma PlanWalkable(p: string)
    requires PlanOk(p)
    ensures Walkable(Plan(p))
  {
    if p != "" {
      ComponentsShape(p);
    }
  }

  lemma ComponentOkSafe(c: string)
    requires ComponentOk(c)
    ensures SafeTarget(c) && FileArg(c)
  {
    ComponentSafe(c);
  }

  /** A relative path of names walks exactly its names. */
  lemma ComponentsOfRelNames(t: string)
    requires RelNames(t)
    ensures Components(t) == Split(t, '/')
  {
    var names := Split(t, '/');
    RelNamesFirst(t);
    NonEmptyNames(names);
    forall i | 0 <= i < |names| ensures Strip(names[i]) == names[i] {
      NameStripped(names[i]);
    }
    StripEachTrimmed(names);
  }

  /** Plain paths never walk through ".". */
  lemma PlainPlanOk(p: string)
    requires PlainPath(p)
    ensures PlanOk(p)
  {
    if Canonical(p) {
      ComponentsOfCanonical(p);
      CanonicalSegs(p);
      assert Plan(p) == ["/"] + Segs(p);
    } else {
      ComponentsOfRelNames(p);
    }
  }

  lemma PlainFileArg(s: string)
    requires PlainPath(s)
    ensures FileArg(s) && !Blank(s) && SafeTarget(s)
  {
    PlainPathStripped(s);
  }

  lemma ResolveRoot(cwd: string)
    ensures Resolve(cwd, "/") == "/"
  {
    AgreeAbsolute(cwd, "/");
  }

  // ---------------------------------------------------------------------
  // Transport

  lemma SendSynced(st: Session, v: Verb)
    requires Synced(st)
    ensures var a := Send(st, v);
      && (a.out.Raised? ==> Synced(a.after))
      && (a.out.Done? ==> Landed(a.after, v, a.out.value))
  {
    ServeWellFormed(st.server, v);
  }

  // ---------------------------------------------------------------------
  // The recursive group, lemma for function

  lemma {:induction false} ReconnectSynced(st: Session)
    requires Synced(st)
    ensures Safe(Reconnect(st))
    decreases 2 * |st.faults| + 1, 0, 0
  {
    if |st.creds| == 0 {
    } else if !("host" in st.creds && "ID" in st.creds && "PW" in st.creds) {
    } else if Fails(st.faults) {
    } else {
      var s1 := st.(connected := true, server := Login(st.server), faults := Rest(st.faults));
      var c := Send(s1, CwdVerb("/"));
      ResolveRoot(s1.server.cwd);
      ServeWellFormed(s1.server, CwdVerb("/"));
      if c.out.Done? {
        assert CwdSucceeded(Msg(c.out.value));
        var olddir := c.after.cache;
        var s3 := c.after.(cache := "/");
        assert Synced(s3);
        PlainPlanOk(olddir);
        SetDirectorySynced(s3, olddir, false);
      }
    }
  }

  lemma {:induction false} RetryingSynced(st: Session, v: Verb)
    requires Synced(st)
    ensures var r := Retrying(st, v);
      && !r.out.Halted?
      && (r.out == Done(GaveUp) ==> Synced(r.after))
      && (r.out.Done? && r.out.value.Got? ==> Landed(r.after, v, r.out.value.reply))
    decreases Pot(st), 0, 1
  {
    var a := Send(st, v);
    SendSynced(st, v);
    if !a.out.Done? {
      ReconnectSynced(a.after);
      var rc := Reconnect(a.after);
      if rc.out == Done(true) {
        SendSynced(rc.after, v);
      }
    }
  }

  lemma {:induction false} PwdSynced(st: Session)
    requires Synced(st)
    ensures Safe(Pwd(st))
    ensures Pwd(st).out.Done? ==> Pwd(st).out.value in {Pwd(st).after.cache, ""}
    decreases Pot(st), 0, 2
  {
    RetryingSynced(st, PwdVerb);
  }

  lemma {:induction false} MkdSynced(st: Session, n: string)
    requires Synced(st)
    ensures Safe(Mkd(st, n))
    decreases Pot(st), 0, 2
  {
    RetryingSynced(st, MkdVerb(n));
  }

  lemma {:induction false} CwdSynced(st: Session, t: string)
    requires Synced(st) && SafeTarget(t)
    ensures Safe(Cwd(st, t))
    decreases Pot(st), 0, 3
  {
    PwdSynced(st);
    var p := Pwd(st);
    if p.out.Done? && p.out.value != t {
      RetryingSynced(p.after, CwdVerb(t));
      var a := Retrying(p.after, CwdVerb(t));
      if a.out.Done? && a.out.value.Got? {
        var ok := CwdSucceeded(Msg(a.out.value.reply));
        if !(ok && t == "") {
          var s := if ok then a.after.(cache := NewCurpath(a.after.cache, t)) else a.after;
          if ok {
            NewCurpathAgreesWithServer(a.after.cache, t);
          }
          assert Synced(s);
          PwdSynced(s);
        }
      }
    }
  }

  lemma {:induction false} LookUpSynced(st: Session, leaf: string)
    requires Synced(st) && '/' !in leaf
    ensures Safe(LookUp(st, leaf))
    decreases Pot(st), |leaf|, 4
  {
    var a := Send(st, NlstVerb);
    SendSynced(st, NlstVerb);
    if !a.out.Done? {
      ReconnectSynced(a.after);
      var rc := Reconnect(a.after);
      if rc.out == Done(true) {
        FileExistsSynced(rc.after, leaf);
      }
    }
  }

  lemma {:induction false} FileExistsSynced(st: Session, s: string)
    requires Synced(st) && FileArg(s)
    ensures Safe(FileExists(st, s))
    decreases Pot(st), |s|, 5
  {
    if s != "/" {
      if '/' in s && |DirPart(s)| > 0 {
        DirPartPlain(s);
        PathExistsSynced(st, DirPart(s));
        var pe := PathExists(st, DirPart(s));
        if pe.out == Done(true) {
          LaterPot(st, pe.after);
          FileExistsEntered(st, s, pe.after);
        }
      } else {
        LookUpSynced(st, if '/' in s then LastPart(s) else s);
      }
    }
  }

  /** The directory part of `s` exists: FileExists moves there and looks up the last part. */
  lemma {:induction false} FileExistsEntered(st: Session, s: string, mid: Session)
    requires s != "/" && '/' in s && |DirPart(s)| > 0 && PlainPath(DirPart(s)) && Synced(mid)
    requires PathExists(st, DirPart(s)) == Run(Done(true), mid) && Pot(mid) <= Pot(st)
    ensures Safe(FileExists(st, s))
    decreases Pot(st), |s|, 4
  {
    var path := DirPart(s);
    CwdSynced(mid, path);
    var c := Cwd(mid, path);
    if c.out.Done? {
      LaterPot(mid, c.after);
      LookUpSynced(c.after, LastPart(s));
    }
  }

  lemma {:induction false} PathExistsSynced(st: Session, p: string)
    requires Synced(st) && PlainPath(p)
    ensures Safe(PathExists(st, p))
    decreases Pot(st), |p|, 8
  {
    PlainPathStripped(p);
    if p[0] == '/' {
      assert Canonical(p) by {
        if RelNames(p) {
          RelNamesFirst(p);
        }
      }
      AbsolutePathExistsSynced(st, p);
    } else {
      assert RelNames(p) by {
        assert !Canonical(p);
      }
      RelativePathExistsSynced(st, p);
    }
  }

  lemma {:induction false} AbsolutePathExistsSynced(st: Session, p: string)
    requires Synced(st) && Canonical(p) && Strip(p) == p
    ensures Safe(PathExists(st, p))
    decreases Pot(st), |p|, 7
  {
    assert Canonical("/");
    CwdSynced(st, "/");
    var c := Cwd(st, "/");
    if c.out == Done(true) && p[1..] != "" {
      CanonicalTail(p);
      FileExistsSynced(c.after, p[1..]);
    }
  }

  lemma {:induction false} RelativePathExistsSynced(st: Session, p: string)
    requires Synced(st) && RelNames(p) && Strip(p) == p && p[0] != '/'
    ensures Safe(PathExists(st, p))
    decreases Pot(st), |p|, 7
  {
    var pieces := Split(p, '/');
    SplitPieces(p, '/');
    var end := Last(pieces);
    var rest := Join(DropLast(pieces), '/');
    if '/' in p {
      assert rest == DirPart(p);
      DirPartPlain(p);
      if |rest| > 0 {
        CwdSynced(st, rest);
      }
    } else {
      SplitNoSep(p, '/');
      assert rest == "";
    }
    var c := if |rest| > 0 then Cwd(st, rest) else Run(Done(true), st);
    if c.out.Done? && end != "" {
      FileExistsSynced(c.after, end);
    }
  }

  lemma {:induction false} SetDirectorySynced(st: Session, p: string, create: bool)
    requires Synced(st) && PlanOk(p)
    ensures Safe(SetDirectory(st, p, create))
    decreases Pot(st), Weight(Plan(p)), 2
  {
    if |p| > 0 && !(p[0] == '/' && p == st.cache) {
      PlanWalkable(p);
      WalkSynced(st, Components(p), create);
    }
  }

  lemma {:induction false} EnsureSynced(st: Session, c: string, create: bool)
    requires Synced(st) && FileArg(c)
    ensures Safe(Ensure(st, c, create))
    decreases Pot(st), |c|, 6
  {
    FileExistsSynced(st, c);
    var fe := FileExists(st, c);
    assert Safe(fe);
    var r := Ensure(st, c, create);
    if !fe.out.Done? {
      assert r == Run(Fail(fe.out), fe.after);
    } else if fe.out.value || !create {
      assert r == Run(Done(fe.out.value), fe.after);
    } else {
      MkdSynced(fe.after, c);
      assert r == Mkd(fe.after, c);
    }
  }

  lemma WalkableTail(cs: seq<string>)
    requires cs != [] && Walkable(cs)
    ensures ComponentOk(cs[0]) && Walkable(cs[1..])
  {
    forall i | 0 <= i < |cs[1..]| ensures ComponentOk(cs[1..][i]) {
      assert cs[1..][i] == cs[i + 1];
    }
  }

  lemma {:induction false} WalkSynced(st: Session, cs: seq<string>, create: bool)
    requires Synced(st) && Walkable(cs)
    ensures Safe(Walk(st, cs, create))
    decreases Pot(st), Weight(cs), 1
  {
    if cs != [] {
      ComponentOkSafe(cs[0]);
      EnsureSynced(st, cs[0], create);
      var e := Ensure(st, cs[0], create);
      if e.out == Done(true) {
        LaterPot(st, e.after);
        WalkEntered(st, cs, create, e.after);
      } else {
        WalkFirstFails(st, cs, create, e.after);
      }
    }
  }

  /** The rest of one step of the walk, once the component exists. */
  lemma {:induction false} WalkEntered(st: Session, cs: seq<string>, create: bool, mid: Session)
    requires cs != [] && Walkable(cs) && Synced(mid)
    requires Ensure(st, cs[0], create) == Run(Done(true), mid)
    ensures Safe(Walk(st, cs, create))
    decreases Pot(mid), Weight(cs), 0
  {
    var cw := Cwd(mid, cs[0]);
    assert Safe(cw) by {
      WalkableTail(cs);
      ComponentOkSafe(cs[0]);
      CwdSynced(mid, cs[0]);
    }
    if cw.out == Done(true) {
      assert Safe(Walk(cw.after, cs[1..], create)) by {
        WalkableTail(cs);
        LaterPot(mid, cw.after);
        WeightHead(cs);
        WalkSynced(cw.after, cs[1..], create);
      }
    }
    WalkStepSafe(st, cs, create, mid);
  }

  /** One step of the walk is safe when its cwd is, and so is the rest of the walk after it. */
  lemma WalkStepSafe(st: Session, cs: seq<string>, create: bool, mid: Session)
    requires cs != [] && Ensure(st, cs[0], create) == Run(Done(true), mid) && Safe(Cwd(mid, cs[0]))
    requires Cwd(mid, cs[0]).out == Done(true) ==> Safe(Walk(Cwd(mid, cs[0]).after, cs[1..], create))
    ensures Safe(Walk(st, cs, create))
  {
  }

  // ---------------------------------------------------------------------
  // The operations built on the engine

  lemma DeleteFileSynced(st: Session, f: string)
    requires Synced(st) && FileArg(f) && !Blank(f)
    ensures Safe(DeleteFile(st, f))
  {
    FileExistsSynced(st, f);
    var fe := FileExists(st, f);
    if fe.out == Done(true) {
      DeleteFound(st, f, fe.after);
    }
  }

  /** DeleteFile once the file was found: the dele verb keeps the cache in step. */
  lemma DeleteFound(st: Session, f: string, mid: Session)
    requires !Blank(f) && Synced(mid) && FileExists(st, f) == Run(Done(true), mid)
    ensures Safe(DeleteFile(st, f))
  {
    RetryingSynced(mid, DeleVerb(f));
    CompletionSafe(Retrying(mid, DeleVerb(f)), DeleVerb(f));
    assert DeleteFile(st, f) == Completion(Retrying(mid, DeleVerb(f)));
  }

  lemma RenameSynced(st: Session, a: string, b: string)
    requires Synced(st) && FileArg(a) && !Blank(a) && !Blank(b)
    ensures Safe(Rename(st, a, b))
  {
    FileExistsSynced(st, a);
    var fe := FileExists(st, a);
    if fe.out == Done(true) {
      RenameFound(st, a, b, fe.after);
    }
  }

  /** Rename once the source was found: the rename verb keeps the cache in step. */
  lemma RenameFound(st: Session, a: string, b: string, mid: Session)
    requires !Blank(a) && !Blank(b) && Synced(mid) && FileExists(st, a) == Run(Done(true), mid)
    ensures Safe(Rename(st, a, b))
  {
    RetryingSynced(mid, RenameVerb(a, b));
    CompletionSafe(Retrying(mid, RenameVerb(a, b)), RenameVerb(a, b));
    assert Rename(st, a, b) == Completion(Retrying(mid, RenameVerb(a, b)));
  }

  /** The listing `Nlst` returns holds only proper entries. */
  lemma NlstSynced(st: Session, d: string)
    requires Synced(st) && PlanOk(d)
    ensures Safe(Nlst(st, d))
    ensures Nlst(st, d).out.Done? ==>
      forall i :: 0 <= i < |Nlst(st, d).out.value| ==> Entry(Nlst(st, d).out.value[i])
  {
    if st.connected {
      SetDirectorySynced(st, d, false);
      var sd := SetDirectory(st, d, false);
      if sd.out == Done(true) {
        SendSynced(sd.after, NlstVerb);
        var a := Send(sd.after, NlstVerb);
        if a.out.Done? {
          var es := Entries(sd.after.server, sd.after.server.cwd);
          assert forall i :: 0 <= i < |es| ==> Entry(es[i]);
          VisibleOfListing(es);
        }
      }
    }
  }

  lemma {:induction false} DeleteEachSynced(st: Session, files: seq<string>)
    requires Synced(st)
    requires forall i :: 0 <= i < |files| ==> Entry(files[i])
    ensures Safe(DeleteEach(st, files))
    decreases |files|
  {
    if files != [] {
      DeleteFileSynced(st, files[0]);
      var df := DeleteFile(st, files[0]);
      if df.out.Done? {
        DeleteEachSynced(df.after, files[1..]);
      }
    }
  }

  lemma DeleteDirSynced(st: Session, d: string)
    requires Synced(st) && PlainPath(d) && d != "/"
    ensures Safe(DeleteDir(st, d))
  {
    PlainFileArg(d);
    FileExistsSynced(st, d);
    var fe := FileExists(st, d);
    if fe.out == Done(true) {
      PlainPlanOk(d);
      NlstSynced(fe.after, d);
      var n := Nlst(fe.after, d);
      if n.out.Done? {
        DeleteListedSynced(st, d, fe.after, n.out.value, n.after);
      }
    }
  }

  /** DeleteDir once the directory was found and listed. */
  lemma DeleteListedSynced(st: Session, d: string, mid: Session, es: seq<string>, listed: Session)
    requires !Blank(d) && d != "/" && Synced(listed)
    requires forall i :: 0 <= i < |es| ==> Entry(es[i])
    requires FileExists(st, d) == Run(Done(true), mid) && Nlst(mid, d) == Run(Done(es), listed)
    ensures Safe(DeleteDir(st, d))
  {
    DeleteEachSynced(listed, es);
    var de := DeleteEach(listed, es);
    if de.out.Done? {
      DeleteSweptSynced(st, d, mid, es, listed, de.after);
    }
  }

  /** DeleteDir once the files were deleted: the rmd keeps the session in step. */
  lemma DeleteSweptSynced(st: Session, d: string, mid: Session, es: seq<string>, listed: Session, swept: Session)
    requires !Blank(d) && d != "/" && Synced(swept)
    requires FileExists(st, d) == Run(Done(true), mid) && Nlst(mid, d) == Run(Done(es), listed)
    requires DeleteEach(listed, es).out.Done? && DeleteEach(listed, es).after == swept
    ensures Safe(DeleteDir(st, d))
  {
    RetryingSynced(swept, RmdVerb(d));
    CompletionSafe(Retrying(swept, RmdVerb(d)), RmdVerb(d));
    DeleteDirRemoves(st, d, mid, es, listed, swept);
  }

  /** The reply test at the end of DeleteFile, Rename and DeleteDir keeps a
      verb other than cwd safe. */
  lemma CompletionSafe(a: Run<Attempt>, v: Verb)
    requires !v.CwdVerb? && !a.out.Halted? && (a.out == Done(GaveUp) ==> Synced(a.after))
    requires a.out.Done? && a.out.value.Got? ==> Landed(a.after, v, a.out.value.reply)
    ensures Safe(Completion(a))
  {
  }

  /** Opening the connection replays the cached path into a well-formed server. */
  lemma OpenConnectionSynced(st: Session, creds: map<string, string>)
    requires Synced(st)
    ensures Safe(OpenConnection(st, creds))
  {
    ReconnectSynced(st.(creds := creds));
  }

  // ---------------------------------------------------------------------
  // The fatal assertions that remain

  /** From a session in step, DeleteFile halts exactly on a blank name. */
  lemma DeleteFileHaltsIffBlank(st: Session, f: string)
    requires Synced(st) && FileArg(f)
    ensures DeleteFile(st, f).out.Halted? <==> Blank(f)
  {
    if !Blank(f) {
      DeleteFileSynced(st, f);
    }
  }

  /** From a session in step, Rename halts exactly on a blank name. */
  lemma RenameHaltsIffBlank(st: Session, a: string, b: string)
    requires Synced(st) && FileArg(a)
    ensures Rename(st, a, b).out.Halted? <==> Blank(a) || Blank(b)
  {
    if !Blank(a) && !Blank(b) {
      RenameSynced(st, a, b);
    }
  }

  /** From a session in step, DeleteDir of a plain path halts exactly on "/". */
  lemma DeleteDirHaltsIffRoot(st: Session, d: string)
    requires Synced(st) && PlainPath(d)
    ensures DeleteDir(st, d).out.Halted? <==> d == "/"
  {
    if d != "/" {
      DeleteDirSynced(st, d);
    }
  }
}
