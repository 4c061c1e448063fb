/** The working-directory cache engine of FTP.py as functions over a session
    value. A session holds the client's state (the cached path
    `g_curdirpath`, the saved credentials, whether `g_ftp` has ever been set),
    the server it talks to, and a schedule of transport faults: each transport
    action (a verb, or opening a connection) takes the next entry, and an entry
    `true` makes that action raise without reaching the server. A verb sent
    before any connection exists raises too, as a call on `None` does.

    Each operation returns what the Python method returns (`Done`), or that an
    exception escaped it (`Raised`), or that an `assert False` stopped the
    program (`Halted`), together with the session afterwards. */
module Engine {
  import opened Text
  import opened Paths
  import opened Replies
  import opened Remote

  datatype Session = Session(
    cache: string,
    creds: map<string, string>,
    connected: bool,
    server: Server,
    faults: seq<bool>)

  datatype Outcome<T> = Done(value: T) | Raised | Halted

  datatype Run<T> = Run(out: Outcome<T>, after: Session)

  /** The result of the try / reconnect / retry pattern: the reply, or the
      client gave up because `Reconnect` returned False. */
  datatype Attempt = Got(reply: Reply) | GaveUp

  /** The same failure, as an outcome of another type. */
  function Fail<T, U>(o: Outcome<T>): (r: Outcome<U>)
    requires !o.Done?
    ensures r.Raised? == o.Raised? && r.Halted? == o.Halted?
  {
    if o.Raised? then Raised else Halted
  }

  /** The text of a reply (a listing has none). */
  function Msg(rep: Reply): string
  {
    if rep.Text? then rep.msg else ""
  }

  /** The names of a listing (a text reply has none). */
  function Names(rep: Reply): seq<string>
  {
    if rep.Listing? then rep.names else []
  }

  function Rest(f: seq<bool>): seq<bool>
  {
    if f == [] then [] else f[1..]
  }

  /** The next transport action fails. */
  predicate Fails(f: seq<bool>)
  {
    f != [] && f[0]
  }

  /** What is left to happen: every step uses up faults or makes a connection,
      and neither is ever undone. */
  function Pot(st: Session): nat
  {
    2 * |st.faults| + (if st.connected then 0 else 1)
  }

  /** `st2` comes after `st`: no fault is given back, a connection is never
      dropped to `None`, and the credentials are untouched. */
  predicate Later(st: Session, st2: Session)
  {
    |st2.faults| <= |st.faults| && (st.connected ==> st2.connected) && st2.creds == st.creds
  }

  lemma LaterPot(a: Session, b: Session)
    requires Later(a, b)
    ensures Pot(b) <= Pot(a)
  {
  }

  lemma LaterTransitive(a: Session, b: Session, c: Session)
    requires Later(a, b) && Later(b, c)
    ensures Later(a, c) && Pot(c) <= Pot(a)
  {
  }

  // ---------------------------------------------------------------------
  // Transport

  /** One ftplib call. */
  function Send(st: Session, v: Verb): (r: Run<Reply>)
    ensures Later(st, r.after) && r.after.cache == st.cache
    ensures !r.out.Halted?
    ensures r.out.Raised? ==>
              && r.after.server == st.server
              && (st.connected ==> |r.after.faults| < |st.faults|)
              && (!st.connected ==> r.after == st)
    ensures r.out.Done? ==>
              && st.connected && r.after.connected
              && r.out.value == Serve(st.server, v).0 && r.after.server == Serve(st.server, v).1
  {
    if !st.connected then Run(Raised, st)
    else if Fails(st.faults) then Run(Raised, st.(faults := st.faults[1..]))
    else
      var res := Serve(st.server, v);
      Run(Done(res.0), st.(server := res.1, faults := Rest(st.faults)))
  }

  /** The `try: verb  except: if not Reconnect(): give up; verb` pattern: the
      retry is not protected, so a second failure escapes. */
  function Retrying(st: Session, v: Verb): (r: Run<Attempt>)
    decreases Pot(st), 0, 1
    ensures Later(st, r.after)
  {
    var a := Send(st, v);
    if a.out.Done? then Run(Done(Got(a.out.value)), a.after)
    else
      var rc := Reconnect(a.after);
      if !rc.out.Done? then Run(Fail(rc.out), rc.after)
      else if !rc.out.value then Run(Done(GaveUp), rc.after)
      else
        var b := Send(rc.after, v);
        if b.out.Done? then Run(Done(Got(b.out.value)), b.after) else Run(Raised, b.after)
  }

  // ---------------------------------------------------------------------
  // Reconnect (FTP.py:44-66)

  /** Opens a fresh connection with the saved credentials, moves the server to
      "/", resets the cache to "/" and replays the old cached path. */
  function Reconnect(st: Session): (r: Run<bool>)
    decreases 2 * |st.faults| + 1, 0, 0
    ensures Later(st, r.after)
    ensures r.out == Done(true) ==> r.after.connected
    ensures |st.creds| == 0 ==> r == Run(Done(false), st)
  {
    if |st.creds| == 0 then Run(Done(false), st)
    else if !("host" in st.creds && "ID" in st.creds && "PW" in st.creds) then Run(Raised, st)
    else if Fails(st.faults) then Run(Raised, st.(faults := st.faults[1..]))
    else
      var s1 := st.(connected := true, server := Login(st.server), faults := Rest(st.faults));
      var c := Send(s1, CwdVerb("/"));
      if !c.out.Done? then Run(Fail(c.out), c.after)
      else if !CwdSucceeded(Msg(c.out.value)) then Run(Done(false), c.after)
      else
        var olddir := c.after.cache;
        var sd := SetDirectory(c.after.(cache := "/"), olddir, false);
        if !sd.out.Done? then Run(Fail(sd.out), sd.after) else Run(Done(true), sd.after)
  }

  // ---------------------------------------------------------------------
  // PWD, CWD, MKD (FTP.py:92-127, 222-240)

  /** `PWD`: asks the server for its directory and halts when the cache
      disagrees under ComparePaths; "" when the reconnect fails. */
  function Pwd(st: Session): (r: Run<string>)
    decreases Pot(st), 0, 2
    ensures Later(st, r.after)
  {
    var a := Retrying(st, PwdVerb);
    if !a.out.Done? then Run(Fail(a.out), a.after)
    else if a.out.value.GaveUp? then Run(Done(""), a.after)
    else
      var dir := Msg(a.out.value.reply);
      if !ComparePaths(a.after.cache, dir) then Run(Halted, a.after)
      else Run(Done(dir), a.after)
  }

  /** `CWD`: true at once when the server is already exactly at `t`;
      otherwise sends cwd, applies UpdateCurpath on a "250 OK." reply (which
      raises IndexError for ""), checks with PWD and returns the reply test. */
  function Cwd(st: Session, t: string): (r: Run<bool>)
    decreases Pot(st), 0, 3
    ensures Later(st, r.after)
  {
    var p := Pwd(st);
    if !p.out.Done? then Run(Fail(p.out), p.after)
    else if p.out.value == t then Run(Done(true), p.after)
    else
      var a := Retrying(p.after, CwdVerb(t));
      if !a.out.Done? then Run(Fail(a.out), a.after)
      else if a.out.value.GaveUp? then Run(Done(false), a.after)
      else
        var ok := CwdSucceeded(Msg(a.out.value.reply));
        if ok && t == "" then Run(Raised, a.after)
        else
          var s := if ok then a.after.(cache := NewCurpath(a.after.cache, t)) else a.after;
          var q := Pwd(s);
          if !q.out.Done? then Run(Fail(q.out), q.after) else Run(Done(ok), q.after)
  }

  /** `MKD` */
  function Mkd(st: Session, n: string): (r: Run<bool>)
    decreases Pot(st), 0, 2
    ensures Later(st, r.after)
  {
    var a := Retrying(st, MkdVerb(n));
    if !a.out.Done? then Run(Fail(a.out), a.after)
    else if a.out.value.GaveUp? then Run(Done(false), a.after)
    else Run(Done(MkdSucceeded(Msg(a.out.value.reply), n)), a.after)
  }

  // ---------------------------------------------------------------------
  // FileExists, PathExists (FTP.py:245-303)

  /** `FileExists` */
  function FileExists(st: Session, s: string): (r: Run<bool>)
    decreases Pot(st), |s|, 5
    ensures Later(st, r.after)
    ensures s == "/" ==> r == Run(Done(true), st)
  {
    if s == "/" then Run(Done(true), st)
    else
      var path := if '/' in s then DirPart(s) else "";
      var leaf := if '/' in s then LastPart(s) else s;
      if |path| > 0 then
        var pe := PathExists(st, path);
        if !pe.out.Done? then Run(Fail(pe.out), pe.after)
        else if !pe.out.value then Run(Done(false), pe.after)
        else
          var c := Cwd(pe.after, path);
          if !c.out.Done? then Run(Fail(c.out), c.after) else LookUp(c.after, leaf)
      else LookUp(st, leaf)
  }

  /** The `try` block of `FileExists`: is `leaf` in the listing of the current
      directory; on failure reconnect and start `FileExists(leaf)` again. */
  function LookUp(st: Session, leaf: string): (r: Run<bool>)
    decreases Pot(st), |leaf|, 4
    ensures Later(st, r.after)
  {
    var a := Send(st, NlstVerb);
    if a.out.Done? then Run(Done(leaf in Names(a.out.value)), a.after)
    else
      var rc := Reconnect(a.after);
      if !rc.out.Done? then Run(Fail(rc.out), rc.after)
      else if !rc.out.value then Run(Done(false), rc.after)
      else FileExists(rc.after, leaf)
  }

  /** `PathExists` */
  function PathExists(st: Session, p: string): (r: Run<bool>)
    decreases Pot(st), |p|, 6
    ensures Later(st, r.after)
  {
    var d := Strip(p);
    if |d| == 0 then Run(Done(false), st)
    else if d[0] == '/' then
      var c := Cwd(st, "/");
      if !c.out.Done? then Run(Fail(c.out), c.after)
      else if !c.out.value then Run(Done(false), c.after)
      else if d[1..] == "" then Run(Done(true), c.after)
      else FileExists(c.after, d[1..])
    else
      var pieces := Split(d, '/');
      SplitPieces(d, '/');
      var end := Last(pieces);
      assert |end| <= |p| by { assert end == pieces[|pieces| - 1]; }
      var rest := Join(DropLast(pieces), '/');
      var c := if |rest| > 0 then Cwd(st, rest) else Run(Done(true), st);
      if !c.out.Done? then Run(Fail(c.out), c.after)
      else if end == "" then Run(Done(true), c.after)
      else FileExists(c.after, end)
  }

  // ---------------------------------------------------------------------
  // SetDirectory (FTP.py:310-346)

  /** The total length of a component list plus one per component: it bounds
      every component and shrinks along the walk. */
  function Weight(cs: seq<string>): nat
  {
    if cs == [] then 0 else |cs[0]| + 1 + Weight(cs[1..])
  }

  /** The first component weighs less than the whole list. */
  lemma WeightHead(cs: seq<string>)
    requires cs != []
    ensures |cs[0]| < Weight(cs) && Weight(cs[1..]) < Weight(cs)
  {
  }

  /** The components SetDirectory walks for `p` (none for ""). */
  function Plan(p: string): seq<string>
  {
    if p == "" then [] else Components(p)
  }

  /** `SetDirectory` */
  function SetDirectory(st: Session, p: string, create: bool): (r: Run<bool>)
    decreases Pot(st), Weight(Plan(p)), 2
    ensures Later(st, r.after)
    ensures p == "" || (p[0] == '/' && p == st.cache) ==> r == Run(Done(true), st)
  {
    if |p| == 0 then Run(Done(true), st)
    else if p[0] == '/' && p == st.cache then Run(Done(true), st)
    else Walk(st, Components(p), create)
  }

  /** The first half of one step of the loop: make sure the component exists,
      creating it when allowed. False when it is missing and may not be
      created, or when MKD fails. */
  function Ensure(st: Session, c: string, create: bool): (r: Run<bool>)
    decreases Pot(st), |c|, 6
    ensures Later(st, r.after)
  {
    var fe := FileExists(st, c);
    if !fe.out.Done? then Run(Fail(fe.out), fe.after)
    else if fe.out.value then Run(Done(true), fe.after)
    else if !create then Run(Done(false), fe.after)
    else Mkd(fe.after, c)
  }

  /** The loop of `SetDirectory` over the components `cs`. */
  function Walk(st: Session, cs: seq<string>, create: bool): (r: Run<bool>)
    decreases Pot(st), Weight(cs), 1
    ensures Later(st, r.after)
  {
    if cs == [] then Run(Done(true), st)
    else
      var e := Ensure(st, cs[0], create);
      if !e.out.Done? then Run(Fail(e.out), e.after)
      else if !e.out.value then Run(Done(false), e.after)
      else
        var cw := Cwd(e.after, cs[0]);
        if !cw.out.Done? then Run(Fail(cw.out), cw.after)
        else if !cw.out.value then Run(Done(false), cw.after)
        else Walk(cw.after, cs[1..], create)
  }

  /** The walk stops at the first component when making sure of it fails. */
  lemma WalkFirstFails(st: Session, cs: seq<string>, create: bool, after: Session)
    requires cs != [] && Ensure(st, cs[0], create).after == after
    requires Ensure(st, cs[0], create).out != Done(true)
    ensures var o := Ensure(st, cs[0], create).out;
      Walk(st, cs, create) == Run(if o.Done? then Done(false) else Fail(o), after)
  {
  }

  /** The walk stops at the first component when the cwd to it fails. */
  lemma WalkSecondFails(st: Session, cs: seq<string>, create: bool, mid: Session, after: Session)
    requires cs != [] && Ensure(st, cs[0], create) == Run(Done(true), mid)
    requires Cwd(mid, cs[0]).after == after && Cwd(mid, cs[0]).out != Done(true)
    ensures var o := Cwd(mid, cs[0]).out;
      Walk(st, cs, create) == Run(if o.Done? then Done(false) else Fail(o), after)
  {
  }

  /** Past the first component, the walk goes on with the rest. */
  lemma WalkPasses(st: Session, cs: seq<string>, create: bool, mid: Session, next: Session)
    requires cs != [] && Ensure(st, cs[0], create) == Run(Done(true), mid)
    requires Cwd(mid, cs[0]) == Run(Done(true), next)
    ensures Walk(st, cs, create) == Walk(next, cs[1..], create)
  {
  }

  // ---------------------------------------------------------------------
  // The operations built on the engine (FTP.py:133-206, 549-570)

  /** The end of `DeleteFile`, `Rename` and `DeleteDir`: the retried verb's
      reply must start with "250 "; giving up is False. */
  function Completion(a: Run<Attempt>): (r: Run<bool>)
    ensures r.after == a.after && r.out.Halted? == a.out.Halted? && r.out.Raised? == a.out.Raised?
    ensures r.out == Done(true) <==> a.out.Done? && a.out.value.Got? && Completed(Msg(a.out.value.reply))
  {
    if !a.out.Done? then Run(Fail(a.out), a.after)
    else if a.out.value.GaveUp? then Run(Done(false), a.after)
    else Run(Done(Completed(Msg(a.out.value.reply))), a.after)
  }

  /** `DeleteFile`: a blank name halts; a missing file counts as deleted. */
  function DeleteFile(st: Session, f: string): (r: Run<bool>)
    ensures Later(st, r.after)
    ensures Blank(f) ==> r == Run(Halted, st)
  {
    if Blank(f) then Run(Halted, st)
    else
      var fe := FileExists(st, f);
      if !fe.out.Done? then Run(Fail(fe.out), fe.after)
      else if !fe.out.value then Run(Done(true), fe.after)
      else
        Completion(Retrying(fe.after, DeleVerb(f)))
  }

  /** `Rename`: a blank name halts; a missing source is a failure. */
  function Rename(st: Session, a: string, b: string): (r: Run<bool>)
    ensures Later(st, r.after)
    ensures Blank(a) || Blank(b) ==> r == Run(Halted, st)
  {
    if Blank(a) || Blank(b) then Run(Halted, st)
    else
      var fe := FileExists(st, a);
      if !fe.out.Done? then Run(Fail(fe.out), fe.after)
      else if !fe.out.value then Run(Done(false), fe.after)
      else
        Completion(Retrying(fe.after, RenameVerb(a, b)))
  }

  /** `Nlst`: moves to `d` and lists it without "." and "..". */
  function Nlst(st: Session, d: string): (r: Run<seq<string>>)
    ensures Later(st, r.after)
    ensures !st.connected ==> r == Run(Done([]), st)
  {
    if !st.connected then Run(Done([]), st)
    else
      var sd := SetDirectory(st, d, false);
      if !sd.out.Done? then Run(Fail(sd.out), sd.after)
      else if !sd.out.value then Run(Done([]), sd.after)
      else
        var a := Send(sd.after, NlstVerb);
        if !a.out.Done? then Run(Raised, a.after)
        else Run(Done(Visible(Names(a.out.value))), a.after)
  }

  /** The loop of `DeleteDir`: `DeleteFile` on each listed name, results ignored. */
  function DeleteEach(st: Session, files: seq<string>): (r: Run<()>)
    decreases |files|
    ensures Later(st, r.after)
  {
    if files == [] then Run(Done(()), st)
    else
      var df := DeleteFile(st, files[0]);
      if !df.out.Done? then Run(Fail(df.out), df.after)
      else DeleteEach(df.after, files[1..])
  }

  /** `DeleteDir`: a blank name or "/" halts; a missing directory counts as
      deleted; otherwise its files are deleted and then the directory. */
  function DeleteDir(st: Session, d: string): (r: Run<bool>)
    ensures Later(st, r.after)
    ensures Blank(d) || d == "/" ==> r == Run(Halted, st)
  {
    if Blank(d) then Run(Halted, st)
    else if d == "/" then Run(Halted, st)
    else
      var fe := FileExists(st, d);
      if !fe.out.Done? then Run(Fail(fe.out), fe.after)
      else if !fe.out.value then Run(Done(true), fe.after)
      else
        var n := Nlst(fe.after, d);
        if !n.out.Done? then Run(Fail(n.out), n.after)
        else
          var de := DeleteEach(n.after, n.out.value);
          if !de.out.Done? then Run(Fail(de.out), de.after)
          else
            Completion(Retrying(de.after, RmdVerb(d)))
  }

  /** Past the listing and the loop, DeleteDir ends with the retried rmd. */
  lemma DeleteDirRemoves(st: Session, d: string, mid: Session, es: seq<string>, listed: Session, swept: Session)
    requires !Blank(d) && d != "/"
    requires FileExists(st, d) == Run(Done(true), mid) && Nlst(mid, d) == Run(Done(es), listed)
    requires DeleteEach(listed, es).out.Done? && DeleteEach(listed, es).after == swept
    ensures DeleteDir(st, d) == Completion(Retrying(swept, RmdVerb(d)))
  {
  }

  /** `OpenConnection`, with the credentials already read: saves them and
      connects. */
  function OpenConnection(st: Session, creds: map<string, string>): (r: Run<bool>)
    ensures r.after.creds == creds
  {
    Reconnect(st.(creds := creds))
  }
}
