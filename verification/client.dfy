/** The FTP class of FTP.py as it runs: one object whose fields are the
    class-level state (`g_curdirpath`, `g_credentials`, whether `g_ftp` is
    set) together with the server it talks to and the schedule of transport
    faults. Each method follows the Python method statement by statement and
    is proved to return, and to leave behind, exactly what the function of
    the same name in module Engine gives for the state it started in; what
    is proved about those functions (modules Consistency and Behaviour)
    therefore holds of the methods. */
module Client {
  import opened Text
  import opened Paths
  import opened Replies
  import opened Remote
  import opened Engine

  class FtpClient {
    /** `FTP.g_curdirpath` */
    var curdirpath: string
    /** `FTP.g_credentials` */
    var credentials: map<string, string>
    /** `FTP.g_ftp is not None` */
    var connected: bool
    var server: Server
    var faults: seq<bool>

    /** The state of the object as a session value. */
    function Snapshot(): Session
      reads this
    {
      Session(curdirpath, credentials, connected, server, faults)
    }

    /** The class as loaded: cache "/", no credentials, no connection. */
    constructor (sv: Server, schedule: seq<bool>)
      ensures Snapshot() == Session("/", map[], false, sv, schedule)
    {
      curdirpath := "/";
      credentials := map[];
      connected := false;
      server := sv;
      faults := schedule;
    }

    /** One ftplib call on `g_ftp`: it raises when there is no connection or
        the transport fails, and otherwise the server answers. */
    method Call(v: Verb) returns (r: Outcome<Reply>)
      modifies this
      ensures Run(r, Snapshot()) == Engine.Send(old(Snapshot()), v)
    {
      if !connected {
        return Raised;
      }
      if Fails(faults) {
        faults := faults[1..];
        return Raised;
      }
      var res := Serve(server, v);
      server := res.1;
      faults := Rest(faults);
      return Done(res.0);
    }

    /** The `try: verb  except: if not self.Reconnect(): give up; verb`
        pattern each verb-sending method repeats. */
    method Retrying(v: Verb) returns (r: Outcome<Attempt>)
      modifies this
      decreases Pot(Snapshot()), 0, 1
      ensures Run(r, Snapshot()) == Engine.Retrying(old(Snapshot()), v)
    {
      var a := Call(v);
      if a.Done? {
        return Done(Got(a.value));
      }
      var rc := Reconnect();
      if !rc.Done? {
        return Fail(rc);
      }
      if !rc.value {
        return Done(GaveUp);
      }
      var b := Call(v);
      if b.Done? {
        return Done(Got(b.value));
      }
      return Raised;
    }

    /** `Reconnect` */
    method Reconnect() returns (r: Outcome<bool>)
      modifies this
      decreases 2 * |faults| + 1, 0, 0
      ensures Run(r, Snapshot()) == Engine.Reconnect(old(Snapshot()))
    {
      if |credentials| == 0 {
        return Done(false);
      }
      if !("host" in credentials && "ID" in credentials && "PW" in credentials) {
        return Raised;
      }
      if Fails(faults) {
        faults := faults[1..];
        return Raised;
      }
      connected := true;
      server := Login(server);
      faults := Rest(faults);
      var msg := Call(CwdVerb("/"));
      if !msg.Done? {
        return Fail(msg);
      }
      if !CwdSucceeded(Msg(msg.value)) {
        return Done(false);
      }
      var olddir := curdirpath;
      curdirpath := "/";
      var sd := SetDirectory(olddir, false);
      if !sd.Done? {
        return Fail(sd);
      }
      return Done(true);
    }

    /** `UpdateCurpath`; true when `newdir[0]` raises IndexError. */
    method UpdateCurpath(newdir: string) returns (raised: bool)
      modifies this
      ensures raised == (newdir == "")
      ensures curdirpath == if raised then old(curdirpath) else NewCurpath(old(curdirpath), newdir)
      ensures credentials == old(credentials) && connected == old(connected)
      ensures server == old(server) && faults == old(faults)
    {
      if |newdir| == 0 {
        return true;
      }
      if newdir[0] == '/' {
        curdirpath := newdir;
      } else if newdir == ".." {
        if curdirpath != "/" {
          curdirpath := PosixHead(curdirpath);
        }
      } else {
        if curdirpath == "/" {
          curdirpath := curdirpath + newdir;
        } else {
          curdirpath := curdirpath + "/" + newdir;
        }
      }
      return false;
    }

    /** `PWD` */
    method Pwd() returns (r: Outcome<string>)
      modifies this
      decreases Pot(Snapshot()), 0, 2
      ensures Run(r, Snapshot()) == Engine.Pwd(old(Snapshot()))
    {
      var a := Retrying(PwdVerb);
      if !a.Done? {
        return Fail(a);
      }
      if a.value.GaveUp? {
        return Done("");
      }
      var dir := Msg(a.value.reply);
      if !ComparePaths(curdirpath, dir) {
        return Halted;
      }
      return Done(dir);
    }

    /** `CWD` */
    method Cwd(newdir: string) returns (r: Outcome<bool>)
      modifies this
      decreases Pot(Snapshot()), 0, 3
      ensures Run(r, Snapshot()) == Engine.Cwd(old(Snapshot()), newdir)
    {
      var wd := Pwd();
      if !wd.Done? {
        return Fail(wd);
      }
      if wd.value == newdir {
        return Done(true);
      }
      var a := Retrying(CwdVerb(newdir));
      if !a.Done? {
        return Fail(a);
      }
      if a.value.GaveUp? {
        return Done(false);
      }
      var ret := CwdSucceeded(Msg(a.value.reply));
      if ret {
        var raised := UpdateCurpath(newdir);
        if raised {
          return Raised;
        }
      }
      var q := Pwd();
      if !q.Done? {
        return Fail(q);
      }
      return Done(ret);
    }

    /** `MKD` */
    method Mkd(newdir: string) returns (r: Outcome<bool>)
      modifies this
      decreases Pot(Snapshot()), 0, 2
      ensures Run(r, Snapshot()) == Engine.Mkd(old(Snapshot()), newdir)
    {
      var a := Retrying(MkdVerb(newdir));
      if !a.Done? {
        return Fail(a);
      }
      if a.value.GaveUp? {
        return Done(false);
      }
      return Done(MkdSucceeded(Msg(a.value.reply), newdir));
    }

    /** `FileExists` */
    method FileExists(filedir: string) returns (r: Outcome<bool>)
      modifies this
      decreases Pot(Snapshot()), |filedir|, 5
      ensures Run(r, Snapshot()) == Engine.FileExists(old(Snapshot()), filedir)
    {
      if filedir == "/" {
        return Done(true);
      }
      var path := if '/' in filedir then DirPart(filedir) else "";
      var leaf := if '/' in filedir then LastPart(filedir) else filedir;
      if |path| > 0 {
        var pe := PathExists(path);
        if !pe.Done? {
          return Fail(pe);
        }
        if !pe.value {
          return Done(false);
        }
        var c := Cwd(path);
        if !c.Done? {
          return Fail(c);
        }
      }
      r := LookUp(leaf);
    }

    /** The `try` block of `FileExists`, with its retry. */
    method LookUp(leaf: string) returns (r: Outcome<bool>)
      modifies this
      decreases Pot(Snapshot()), |leaf|, 4
      ensures Run(r, Snapshot()) == Engine.LookUp(old(Snapshot()), leaf)
    {
      var a := Call(NlstVerb);
      if a.Done? {
        return Done(leaf in Names(a.value));
      }
      var rc := Reconnect();
      if !rc.Done? {
        return Fail(rc);
      }
      if !rc.value {
        return Done(false);
      }
      r := FileExists(leaf);
    }

    /** `PathExists` */
    method PathExists(dirPath: string) returns (r: Outcome<bool>)
      modifies this
      decreases Pot(Snapshot()), |dirPath|, 6
      ensures Run(r, Snapshot()) == Engine.PathExists(old(Snapshot()), dirPath)
    {
      var d := Strip(dirPath);
      if |d| == 0 {
        return Done(false);
      }
      if d[0] == '/' {
        var c := Cwd("/");
        if !c.Done? {
          return Fail(c);
        }
        if !c.value {
          return Done(false);
        }
        if d[1..] == "" {
          return Done(true);
        }
        r := FileExists(d[1..]);
        return;
      }
      var path := Split(d, '/');
      SplitPieces(d, '/');
      var end := Last(path);
      assert |end| <= |dirPath| by { assert end == path[|path| - 1]; }
      var rest := Join(DropLast(path), '/');
      if |rest| > 0 {
        var c := Cwd(rest);
        if !c.Done? {
          return Fail(c);
        }
      }
      if end == "" {
        return Done(true);
      }
      r := FileExists(end);
    }

    /** `SetDirectory`: two early exits, then the loop over the components. */
    method SetDirectory(newdir: string, create: bool) returns (r: Outcome<bool>)
      modifies this
      decreases Pot(Snapshot()), Weight(Plan(newdir)), 2
      ensures Run(r, Snapshot()) == Engine.SetDirectory(old(Snapshot()), newdir, create)
    {
      if |newdir| == 0 {
        return Done(true);
      }
      if newdir[0] == '/' && newdir == curdirpath {
        return Done(true);
      }
      r := Walk(Components(newdir), create);
    }

    /** The loop of `SetDirectory`: each component is made sure of, then
        entered; the first failure ends the loop. */
    method Walk(components: seq<string>, create: bool) returns (r: Outcome<bool>)
      modifies this
      decreases Pot(Snapshot()), Weight(components), 1
      ensures Run(r, Snapshot()) == Engine.Walk(old(Snapshot()), components, create)
    {
      ghost var s0 := Snapshot();
      var rest := components;
      while rest != []
        invariant Later(s0, Snapshot())
        invariant Weight(rest) <= Weight(components)
        invariant Engine.Walk(Snapshot(), rest, create) == Engine.Walk(s0, components, create)
        decreases |rest|
      {
        var component := rest[0];
        WeightHead(rest);
        ghost var s := Snapshot();
        var e := Ensure(component, create);
        if !e.Done? || !e.value {
          WalkFirstFails(s, rest, create, Snapshot());
          return if e.Done? then Done(false) else Fail(e);
        }
        ghost var mid := Snapshot();
        var c := Cwd(component);
        if !c.Done? || !c.value {
          WalkSecondFails(s, rest, create, mid, Snapshot());
          return if c.Done? then Done(false) else Fail(c);
        }
        WalkPasses(s, rest, create, mid, Snapshot());
        rest := rest[1..];
      }
      return Done(true);
    }

    /** The body of the loop of `SetDirectory` up to the cwd: does the
        component exist, and if not, may it be and is it created. */
    method Ensure(component: string, create: bool) returns (r: Outcome<bool>)
      modifies this
      decreases Pot(Snapshot()), |component|, 6
      ensures Run(r, Snapshot()) == Engine.Ensure(old(Snapshot()), component, create)
    {
      var e := FileExists(component);
      if !e.Done? {
        return Fail(e);
      }
      if e.value {
        return Done(true);
      }
      if !create {
        return Done(false);
      }
      r := Mkd(component);
    }

    /** `DeleteFile` */
    method DeleteFile(fname: string) returns (r: Outcome<bool>)
      modifies this
      ensures Run(r, Snapshot()) == Engine.DeleteFile(old(Snapshot()), fname)
    {
      if Blank(fname) {
        return Halted;
      }
      var fe := FileExists(fname);
      if !fe.Done? {
        return Fail(fe);
      }
      if !fe.value {
        return Done(true);
      }
      var a := Retrying(DeleVerb(fname));
      if !a.Done? {
        return Fail(a);
      }
      if a.value.GaveUp? {
        return Done(false);
      }
      return Done(Completed(Msg(a.value.reply)));
    }

    /** `Rename` */
    method Rename(oldname: string, newname: string) returns (r: Outcome<bool>)
      modifies this
      ensures Run(r, Snapshot()) == Engine.Rename(old(Snapshot()), oldname, newname)
    {
      if Blank(oldname) || Blank(newname) {
        return Halted;
      }
      var fe := FileExists(oldname);
      if !fe.Done? {
        return Fail(fe);
      }
      if !fe.value {
        return Done(false);
      }
      var a := Retrying(RenameVerb(oldname, newname));
      if !a.Done? {
        return Fail(a);
      }
      if a.value.GaveUp? {
        return Done(false);
      }
      return Done(Completed(Msg(a.value.reply)));
    }

    /** `Nlst` */
    method Nlst(directory: string) returns (r: Outcome<seq<string>>)
      modifies this
      ensures Run(r, Snapshot()) == Engine.Nlst(old(Snapshot()), directory)
    {
      if !connected {
        return Done([]);
      }
      var sd := SetDirectory(directory, false);
      if !sd.Done? {
        return Fail(sd);
      }
      if !sd.value {
        return Done([]);
      }
      var a := Call(NlstVerb);
      if !a.Done? {
        return Raised;
      }
      return Done(Visible(Names(a.value)));
    }

    /** `DeleteDir`: the loop deleting the listed files, then rmd. */
    method DeleteDir(dirname: string) returns (r: Outcome<bool>)
      modifies this
      ensures Run(r, Snapshot()) == Engine.DeleteDir(old(Snapshot()), dirname)
    {
      if Blank(dirname) {
        return Halted;
      }
      if dirname == "/" {
        return Halted;
      }
      var fe := FileExists(dirname);
      if !fe.Done? {
        return Fail(fe);
      }
      if !fe.value {
        return Done(true);
      }
      var files := Nlst(dirname);
      if !files.Done? {
        return Fail(files);
      }
      var swept := DeleteEach(files.value);
      if !swept.Done? {
        return Fail(swept);
      }
      var a := Retrying(RmdVerb(dirname));
      if !a.Done? {
        return Fail(a);
      }
      if a.value.GaveUp? {
        return Done(false);
      }
      return Done(Completed(Msg(a.value.reply)));
    }

    /** The loop of `DeleteDir`: `DeleteFile` on each listed name, its
        result ignored. */
    method DeleteEach(files: seq<string>) returns (r: Outcome<()>)
      modifies this
      ensures Run(r, Snapshot()) == Engine.DeleteEach(old(Snapshot()), files)
    {
      ghost var s0 := Snapshot();
      var rest := files;
      while rest != []
        invariant Engine.DeleteEach(Snapshot(), rest) == Engine.DeleteEach(s0, files)
        decreases |rest|
      {
        var d := DeleteFile(rest[0]);
        if !d.Done? {
          return Fail(d);
        }
        rest := rest[1..];
      }
      return Done(());
    }

    /** `OpenConnection`, with the credentials already read from the file. */
    method OpenConnection(creds: map<string, string>) returns (r: Outcome<bool>)
      modifies this
      ensures Run(r, Snapshot()) == Engine.OpenConnection(old(Snapshot()), creds)
    {
      credentials := creds;
      r := Reconnect();
    }
  }
}
