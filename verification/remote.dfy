/** The FTP server the client talks to, as the client sees it through ftplib:
    a tree of directories, a current directory, and the reply each verb returns.
    Replies follow the wording of Pure-FTPd. A negative reply comes back as
    text; mkd returns the directory name, as ftplib's `mkd` extracts it from
    the 257 reply; nlst returns the names in the current directory, "." and
    ".." first. */
module Remote {
  import opened Text
  import opened Paths
  import opened Replies

  /** `tree` maps each directory (an absolute path) to the names it holds; a
      listed name that is not itself a directory is a file. `home` is where a
      fresh login starts. */
  datatype Server = Server(tree: map<string, seq<string>>, cwd: string, home: string)

  /** The ftplib calls the client makes. */
  datatype Verb =
    | CwdVerb(dir: string)
    | PwdVerb
    | MkdVerb(name: string)
    | NlstVerb
    | DeleVerb(name: string)
    | RenameVerb(from: string, to: string)
    | RmdVerb(name: string)

  /** What an ftplib call returns: reply text, or the names of a listing. */
  datatype Reply = Text(msg: string) | Listing(names: seq<string>)

  /** A name the server keeps in a directory: no "/", not blank, not a dot entry. */
  predicate Entry(e: string)
  {
    '/' !in e && !Blank(e) && e != "." && e != ".."
  }

  /** Every directory of the tree holds proper entries. */
  predicate Proper(tree: map<string, seq<string>>)
  {
    forall d, i :: d in tree && 0 <= i < |tree[d]| ==> Entry(tree[d][i])
  }

  /** The root exists and every directory holds proper entries. */
  predicate WellFormed(sv: Server)
  {
    "/" in sv.tree && Proper(sv.tree)
  }

  /** The entries of `es` other than `x`, in order. */
  function Without(es: seq<string>, x: string): seq<string>
  {
    if es == [] then []
    else if es[0] == x then Without(es[1..], x)
    else [es[0]] + Without(es[1..], x)
  }

  /** Removing `x` keeps exactly the other entries. */
  lemma {:induction false} WithoutMembers(es: seq<string>, x: string)
    ensures forall y :: y in Without(es, x) <==> y in es && y != x
    decreases |es|
  {
    if es != [] {
      WithoutMembers(es[1..], x);
      assert es == [es[0]] + es[1..];
    }
  }

  /** The names listed in directory `d` (nothing when it does not exist). */
  function Entries(sv: Server, d: string): seq<string>
  {
    if d in sv.tree then sv.tree[d] else []
  }

  /** The segments `segs` name a file: a listed name that is not a directory. */
  predicate IsFile(sv: Server, segs: seq<string>)
  {
    segs != [] && Last(segs) in Entries(sv, Canon(DropLast(segs))) && Canon(segs) !in sv.tree
  }

  /** The segments `segs` name a place where a new entry can be made. */
  predicate Vacant(sv: Server, segs: seq<string>)
  {
    segs != [] && Canon(DropLast(segs)) in sv.tree && Entry(Last(segs))
    && Canon(segs) !in sv.tree && Last(segs) !in sv.tree[Canon(DropLast(segs))]
  }

  // ---------------------------------------------------------------------
  // One function per verb

  function ChangeDir(sv: Server, t: string): (res: (Reply, Server))
    ensures res.0.Text? && (CwdSucceeded(res.0.msg) <==> Resolve(sv.cwd, t) in sv.tree)
  {
    var r := Resolve(sv.cwd, t);
    if r in sv.tree then
      var msg := "250 OK. Current directory is " + r;
      assert msg[..7] == "250 OK.";
      (Text(msg), sv.(cwd := r))
    else
      var msg := "550 Can't change directory to " + t + ": No such file or directory";
      assert msg[0] == '5';
      (Text(msg), sv)
  }

  function MakeDir(sv: Server, n: string): (res: (Reply, Server))
    ensures res.0.Text? && res.1.home == sv.home && res.1.cwd == sv.cwd
  {
    var segs := Target(sv.cwd, n);
    if Vacant(sv, segs) then
      var parent := Canon(DropLast(segs));
      (Text(n), sv.(tree := sv.tree[Canon(segs) := []][parent := sv.tree[parent] + [Last(segs)]]))
    else (Text("550 " + "Can't create directory: File exists"), sv)
  }

  function RemoveFile(sv: Server, n: string): (res: (Reply, Server))
    ensures res.0.Text? && res.1.home == sv.home && res.1.cwd == sv.cwd
  {
    var segs := Target(sv.cwd, n);
    if IsFile(sv, segs) then
      var parent := Canon(DropLast(segs));
      (Text("250 Deleted " + n), sv.(tree := sv.tree[parent := Without(sv.tree[parent], Last(segs))]))
    else (Text("550 Could not delete " + n + ": No such file or directory"), sv)
  }

  function RenameFile(sv: Server, a: string, b: string): (res: (Reply, Server))
    ensures res.0.Text? && res.1.home == sv.home && res.1.cwd == sv.cwd
  {
    var from, to := Target(sv.cwd, a), Target(sv.cwd, b);
    if IsFile(sv, from) && to != [] && Canon(DropLast(to)) in sv.tree && Entry(Last(to))
      && Canon(to) !in sv.tree
    then
      var pa, pb := Canon(DropLast(from)), Canon(DropLast(to));
      var t1 := sv.tree[pa := Without(sv.tree[pa], Last(from))];
      var t2 := t1[pb := Without(t1[pb], Last(to)) + [Last(to)]];
      (Text("250 " + "File successfully renamed or moved"), sv.(tree := t2))
    else (Text("451 " + "Rename/move failure: No such file or directory"), sv)
  }

  function RemoveDir(sv: Server, n: string): (res: (Reply, Server))
    ensures res.0.Text? && res.1.home == sv.home && res.1.cwd == sv.cwd
  {
    var segs := Target(sv.cwd, n);
    var d := Canon(segs);
    if segs != [] && d != "/" && d in sv.tree && sv.tree[d] == [] then
      var parent := Canon(DropLast(segs));
      var t1 := sv.tree - {d};
      var t2 := if parent in t1 then t1[parent := Without(t1[parent], Last(segs))] else t1;
      (Text("250 " + "The directory was successfully removed"), sv.(tree := t2))
    else (Text("550 " + "Can't remove directory: No such file or directory"), sv)
  }

  /** The reply and the new server state for one verb. */
  function Serve(sv: Server, v: Verb): (res: (Reply, Server))
    ensures res.0.Listing? <==> v.NlstVerb?
    ensures res.1.home == sv.home
    ensures !v.CwdVerb? ==> res.1.cwd == sv.cwd
    ensures v.CwdVerb? || v.PwdVerb? || v.NlstVerb? ==> res.1.tree == sv.tree
    ensures v.CwdVerb? ==>
      (CwdSucceeded(res.0.msg) <==> Resolve(sv.cwd, v.dir) in sv.tree)
      && res.1.cwd == (if Resolve(sv.cwd, v.dir) in sv.tree then Resolve(sv.cwd, v.dir) else sv.cwd)
    ensures v.PwdVerb? ==> res.0 == Text(sv.cwd)
    ensures v.NlstVerb? ==> res.0 == Listing([".", ".."] + Entries(sv, sv.cwd))
  {
    match v
    case CwdVerb(t) => ChangeDir(sv, t)
    case PwdVerb => (Text(sv.cwd), sv)
    case MkdVerb(n) => MakeDir(sv, n)
    case NlstVerb => (Listing([".", ".."] + Entries(sv, sv.cwd)), sv)
    case DeleVerb(n) => RemoveFile(sv, n)
    case RenameVerb(a, b) => RenameFile(sv, a, b)
    case RmdVerb(n) => RemoveDir(sv, n)
  }

  /** A fresh login starts in the home directory; nothing else changes. */
  function Login(sv: Server): (r: Server)
    ensures r.tree == sv.tree && r.cwd == sv.home
  {
    sv.(cwd := sv.home)
  }

  // ---------------------------------------------------------------------
  // The server keeps itself well formed

  lemma WithoutEntries(es: seq<string>, x: string)
    requires forall i :: 0 <= i < |es| ==> Entry(es[i])
    ensures forall i :: 0 <= i < |Without(es, x)| ==> Entry(Without(es, x)[i])
  {
    var r := Without(es, x);
    WithoutMembers(es, x);
    forall i | 0 <= i < |r| ensures Entry(r[i]) {
      assert r[i] in es;
    }
  }

  lemma EntriesSnoc(es: seq<string>, e: string)
    requires forall i :: 0 <= i < |es| ==> Entry(es[i])
    requires Entry(e)
    ensures forall i :: 0 <= i < |es + [e]| ==> Entry((es + [e])[i])
  {
  }

  lemma ProperUpdate(tree: map<string, seq<string>>, k: string, es: seq<string>)
    requires Proper(tree)
    requires forall i :: 0 <= i < |es| ==> Entry(es[i])
    ensures Proper(tree[k := es])
  {
  }

  lemma MakeDirWellFormed(sv: Server, n: string)
    requires WellFormed(sv)
    ensures WellFormed(MakeDir(sv, n).1)
  {
    var segs := Target(sv.cwd, n);
    if Vacant(sv, segs) {
      var parent := Canon(DropLast(segs));
      ProperUpdate(sv.tree, Canon(segs), []);
      ProperUpdate(sv.tree[Canon(segs) := []], parent, sv.tree[parent] + [Last(segs)]);
    }
  }

  lemma RemoveFileWellFormed(sv: Server, n: string)
    requires WellFormed(sv)
    ensures WellFormed(RemoveFile(sv, n).1)
  {
    var segs := Target(sv.cwd, n);
    if IsFile(sv, segs) {
      var parent := Canon(DropLast(segs));
      WithoutEntries(sv.tree[parent], Last(segs));
      ProperUpdate(sv.tree, parent, Without(sv.tree[parent], Last(segs)));
    }
  }

  lemma RenameFileWellFormed(sv: Server, a: string, b: string)
    requires WellFormed(sv)
    ensures WellFormed(RenameFile(sv, a, b).1)
  {
    var from, to := Target(sv.cwd, a), Target(sv.cwd, b);
    if IsFile(sv, from) && to != [] && Canon(DropLast(to)) in sv.tree && Entry(Last(to))
      && Canon(to) !in sv.tree
    {
      var pa, pb := Canon(DropLast(from)), Canon(DropLast(to));
      WithoutEntries(sv.tree[pa], Last(from));
      var t1 := sv.tree[pa := Without(sv.tree[pa], Last(from))];
      ProperUpdate(sv.tree, pa, Without(sv.tree[pa], Last(from)));
      WithoutEntries(t1[pb], Last(to));
      var es := Without(t1[pb], Last(to)) + [Last(to)];
      EntriesSnoc(Without(t1[pb], Last(to)), Last(to));
      ProperUpdate(t1, pb, es);
      assert RenameFile(sv, a, b).1 == sv.(tree := t1[pb := es]);
    }
  }

  lemma RemoveDirWellFormed(sv: Server, n: string)
    requires WellFormed(sv)
    ensures WellFormed(RemoveDir(sv, n).1)
  {
    var segs := Target(sv.cwd, n);
    var d := Canon(segs);
    if segs != [] && d != "/" && d in sv.tree && sv.tree[d] == [] {
      var parent := Canon(DropLast(segs));
      var t1 := sv.tree - {d};
      if parent in t1 {
        WithoutEntries(t1[parent], Last(segs));
        ProperUpdate(t1, parent, Without(t1[parent], Last(segs)));
      }
    }
  }

  /** No verb removes the root or puts an improper entry into a directory. */
  lemma ServeWellFormed(sv: Server, v: Verb)
    requires WellFormed(sv)
    ensures WellFormed(Serve(sv, v).1)
  {
    match v
    case CwdVerb(t) =>
    case PwdVerb =>
    case MkdVerb(n) => MakeDirWellFormed(sv, n);
    case NlstVerb =>
    case DeleVerb(n) => RemoveFileWellFormed(sv, n);
    case RenameVerb(a, b) => RenameFileWellFormed(sv, a, b);
    case RmdVerb(n) => RemoveDirWellFormed(sv, n);
  }
}
