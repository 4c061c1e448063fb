# FTP working-directory cache, modelled in Dafny

`FTP.py` wraps one shared `ftplib` connection. It keeps its own record of the
server's current directory in the class-level field `g_curdirpath`, which
starts at `"/"`. Every directory change updates this cached path. `PWD`
re-reads the server's directory and stops the program (`assert False`) when the
cache disagrees with it. `SetDirectory` walks a path one component at a time
and can create missing directories. `FileExists`, `PathExists`, `MKD`,
`DeleteFile`, `Rename`, `Nlst` and `DeleteDir` are built on these operations.
Every server call follows the same pattern: try the verb; on an exception,
`Reconnect` and retry once. `Reconnect` logs in again, moves to `"/"`, resets
the cache to `"/"` and replays the old cached path through `SetDirectory`.

The model has two layers.

- **Engine** (`engine.dfy`) describes each operation as a function over a
  `Session`. A session holds:
  - the cached path;
  - the saved credentials;
  - whether a connection was ever opened;
  - a model of the server;
  - a *fault schedule*: a sequence of booleans. Each transport action consumes
    one entry, and `true` makes that action raise before it reaches the server.

  Each operation returns an `Outcome`:
  - `Done(v)`: the Python method returned `v`;
  - `Raised`: an exception escaped the method;
  - `Halted`: an `assert False` fired.

  The outcome comes paired with the session afterwards. These functions recurse
  mutually through `Reconnect`. They terminate on a potential of twice the
  number of scheduled faults, plus one while no connection has been opened.
  A retry after a fault has consumed that fault. A reconnect that opens the
  first connection may consume no fault, but it uses up the extra one.
- **Client** (`client.dfy`) is the class `FtpClient`. Its fields are the
  state the Python class updates in place. Its methods follow the Python
  methods statement by statement:
  - `UpdateCurpath` overwrites the cached path case by case;
  - `SetDirectory` runs the component loop;
  - `DeleteDir` runs the loop over listed files.

  Every method is proved to produce exactly the outcome and the new state that
  the Engine function gives for the old state. So every property proved about
  the Engine holds for the class.

The other files are:

- `text.dfy`: Python's `split`, `join` and `strip`.
- `paths.dfy`: `ComparePaths`, the path arithmetic of `UpdateCurpath`
  (`os.path.split`), the component list of `SetDirectory`, and how a server
  resolves a path.
- `replies.dfy`: the reply prefix tests, `IsSuccess` and the `Nlst` filter.
- `remote.dfy`: the server model. It has a tree of directories, each listing
  its names; a listed name that is not a directory is a file. It also has a
  current directory and a home directory, and a reply for each verb, worded as
  Pure-FTPd words them.
- `consistency.dfy`: the consistency invariant. The cache equals the server's
  directory, the path is canonical and the server is well formed. Every
  operation keeps this invariant, including across reconnects, and none halts
  for well-formed arguments.
- `behaviour.dfy`: what each operation does when no faults occur.

## Model

| member | source | states |
|---|---|---|
| Paths.ComparePathsIffSameWithoutOneSlash | FTP.py:211-217 | ComparePaths holds exactly when the two paths are equal once one trailing "/" is added to any path that is empty or lacks one |
| Paths.ComparePathsEquivalence | FTP.py:211-217 | ComparePaths is reflexive, symmetric and transitive |
| Paths.ComparePathsTrailingSlash | FTP.py:211-217 | p and p + "/" compare equal when p has no trailing "/"; "" and "/" compare equal |
| Paths.ComparePathsDoubleSlashDiffers | FTP.py:211-217 | a doubled trailing "/" is not normalised: "a/" and "a//" differ |
| Paths.ComparePathsCanonical | FTP.py:211-217 | on canonical paths ComparePaths is plain equality |
| Paths.DropOneSlash | FTP.py:213-216 | the path with at most one trailing "/" removed gives back the padded path once "/" is appended |
| Paths.NewCurpathAbsolute | FTP.py:75-76 | a target starting with "/" becomes the cached path exactly |
| Paths.NewCurpathAppends | FTP.py:82-87 | when the cache is "/" or does not end in "/", any other target except ".." is appended as one segment: directly after "/", after a single "/" elsewhere, so no "//" is introduced |
| Paths.NewCurpathParent | FTP.py:77-81 | ".." leaves "/" unchanged and otherwise drops the last segment; the parent of a one-segment path is "/" |
| Paths.NewCurpathDoubleParent | FTP.py:78 | "../.." is not handled as two levels: it is appended literally |
| Paths.PosixHeadOfCanon | FTP.py:80 | the head that os.path.split returns for a canonical path is the path without its last segment |
| Paths.PosixHeadOfTop | FTP.py:80 | the head of a one-segment path "/a" is "/" |
| Paths.PosixHeadOfDeeper | FTP.py:80 | the head of a path of two or more segments drops the last segment |
| Paths.NewCurpathAgreesWithServer | FTP.py:73-87 | for a canonical cache and a target that is "/", "..", a canonical path or relative names, the new cached path equals the directory the server resolves and is canonical |
| Paths.AgreeParent | FTP.py:77-81 | the cached parent equals the server's resolution of ".." |
| Paths.AgreeAbsolute | FTP.py:75-76 | an absolute canonical target is the new cache and the server's resolution alike |
| Paths.AgreeRelative | FTP.py:82-87 | a relative target of plain names gives the server's resolution |
| Paths.CanonicalSegs | FTP.py:17 | a canonical path is rebuilt exactly from its segments |
| Paths.SegsCanon | FTP.py:17 | segments of plain names give a canonical path that splits back into them |
| Paths.ComponentsOfCanonical | FTP.py:322-327 | the components of a canonical absolute path are "/" followed by its segments |
| Paths.ComponentsIgnoreRepeatedSlash | FTP.py:326-327 | "//" in a path contributes the same components as "/" |
| Paths.ComponentsIgnoreTrailingSlash | FTP.py:326-327 | a trailing "/" contributes no component |
| Paths.ComponentsShape | FTP.py:322-327 | the first component is "/" exactly when the path is absolute; every other component is stripped and contains no "/" |
| Paths.DirPart | FTP.py:283-284 | the directory part is shorter than the argument when it contains "/" and empty otherwise |
| Paths.LastPart | FTP.py:285 | the last part contains no "/", is shorter than the argument when it contains "/", and is the whole argument when it has none |
| Paths.DirPartLastPart | FTP.py:283-285 | for an argument containing "/", the directory part, "/" and the last part give the argument back |
| Paths.DirPartPlain | FTP.py:283-289 | the directory part of a plain path is empty or again a plain path |
| Paths.PlainPathStripped | FTP.py:246 | stripping leaves a plain path unchanged |
| Paths.NormalizeNames | FTP.py:100 | the server resolves plain names by appending them to the current directory |
| Text.JoinSplit | FTP.py:284-285 | joining the pieces of split gives back the string |
| Text.SplitJoin | FTP.py:259-264 | splitting a join of separator-free pieces gives back the pieces |
| Text.SplitPieces | FTP.py:326-327 | no piece of split contains the separator and none is longer than the string |
| Text.SplitConcat | FTP.py:326 | splitting a + sep + b is the split of a followed by the split of b |
| Text.SplitLastPiece | FTP.py:284-285 | a string with a separator splits into at least two pieces and is exactly the join of all pieces but the last, then the separator, then the last piece |
| Text.Strip | FTP.py:246 | the result is no longer than the argument and neither starts nor ends with whitespace |
| Text.StripIdempotent | FTP.py:327 | stripping twice is stripping once |
| Text.BlankIffAllSpace | FTP.py:133 | len(s.strip()) == 0 exactly when every character of s is whitespace |
| Replies.IsSuccessIff | FTP.py:407-412 | IsSuccess holds exactly when the reply is the transfer banner or starts with the banner followed by a newline |
| Replies.IsSuccessImpliesPrefix | FTP.py:407-412 | every reply IsSuccess accepts also passes the prefix test of GetAsString |
| Replies.PrefixWithoutIsSuccess | FTP.py:537 | the converse fails: the banner followed by "." passes the prefix test but not IsSuccess |
| Replies.VisibleMembers | FTP.py:570 | the Nlst filter keeps exactly the names other than "." and ".." |
| Replies.VisibleAppend | FTP.py:570 | the filter distributes over concatenation, so order is kept |
| Replies.VisibleKeepsPlain | FTP.py:570 | a listing without dot entries passes unchanged |
| Replies.VisibleOfListing | FTP.py:570 | filtering a listing that starts with "." and ".." gives back the remaining entries |
| Remote.ChangeDir | FTP.py:100-108 | the cwd reply starts with "250 OK." exactly when the resolved directory exists |
| Remote.Serve | FTP.py:100 | reply and new server per verb: only cwd moves the server, cwd succeeds exactly on an existing directory, pwd returns the server's directory, nlst lists "." and ".." and then the entries |
| Remote.WithoutMembers | FTP.py:143 | removing a name keeps exactly the other names |
| Remote.ServeWellFormed | FTP.py:100-206 | every verb keeps the server well formed |
| Engine.Send | FTP.py:99-101 | a verb without a connection, or one whose scheduled fault fires, raises and leaves the server unchanged; otherwise it returns the server's reply and state; the cache is never touched |
| Engine.Completion | FTP.py:149-150 | the end of DeleteFile, Rename and DeleteDir returns True exactly when the retried verb got a reply starting with "250 "; an exception or halt passes through unchanged |
| Engine.Reconnect | FTP.py:45-66 | no saved credentials returns False with nothing changed; a True result leaves a connection open |
| Engine.FileExists | FTP.py:277-279 | "/" always exists, with no server call |
| Engine.SetDirectory | FTP.py:314-320 | an empty path, or an absolute path equal to the cached path, returns True with no action |
| Engine.DeleteFile | FTP.py:133-136 | a blank name halts with no action |
| Engine.Rename | FTP.py:156-159 | a blank old or new name halts with no action |
| Engine.DeleteDir | FTP.py:181-187 | a blank name or "/" halts with no action |
| Engine.Nlst | FTP.py:562-564 | without a connection the listing is empty and nothing changes |
| Engine.OpenConnection | FTP.py:23-26 | the given credentials are saved before the reconnect |
| Consistency.PwdSynced | FTP.py:222-240 | from a consistent state PWD never halts, keeps consistency, and returns the cached path, or "" when the reconnect fails |
| Consistency.CwdSynced | FTP.py:92-112 | from a consistent state CWD to "/", "..", a canonical path or plain names never halts and keeps consistency |
| Consistency.MkdSynced | FTP.py:117-127 | MKD never halts and keeps consistency |
| Consistency.ReconnectSynced | FTP.py:45-66 | a reconnect (login, cwd "/", reset, replay) never halts and, if it completes, leaves the state consistent |
| Consistency.RetryingSynced | FTP.py:99-105 | try/reconnect/retry never halts; after giving up the state is consistent; after a reply the server is ahead of the cache only by a successful cwd, and pwd answered with the cached path |
| Consistency.FileExistsSynced | FTP.py:274-303 | FileExists of "/", of a name without "/", or of a plain path (canonical, or relative names other than "." and "..") never halts and keeps consistency |
| Consistency.PathExistsSynced | FTP.py:245-269 | PathExists of a plain path never halts and keeps consistency |
| Consistency.SetDirectorySynced | FTP.py:310-346 | SetDirectory of a path with no "." component never halts and keeps consistency, with or without creation |
| Consistency.WalkSynced | FTP.py:330-346 | the component walk never halts and keeps consistency |
| Consistency.EnsureSynced | FTP.py:332-339 | the exists-or-create step never halts and keeps consistency |
| Consistency.DeleteFileSynced | FTP.py:131-150 | DeleteFile of a non-blank name that is "/", has no "/", or is a plain path never halts and keeps consistency |
| Consistency.RenameSynced | FTP.py:154-173 | Rename of non-blank names, the old one "/", without "/", or a plain path, never halts and keeps consistency |
| Consistency.NlstSynced | FTP.py:561-570 | Nlst of a path none of whose components is "." never halts, keeps consistency, and returns only proper entry names |
| Consistency.DeleteEachSynced | FTP.py:195-196 | deleting each listed file never halts and keeps consistency |
| Consistency.DeleteDirSynced | FTP.py:179-206 | DeleteDir of a plain path other than "/" never halts and keeps consistency |
| Consistency.OpenConnectionSynced | FTP.py:23-26 | opening a connection from a consistent state never halts and keeps consistency |
| Consistency.DeleteFileHaltsIffBlank | FTP.py:133-136 | for a name that is "/", has no "/", or is a plain path, DeleteFile halts exactly when the name is blank |
| Consistency.RenameHaltsIffBlank | FTP.py:156-159 | for an old name that is "/", has no "/", or is a plain path, Rename halts exactly when either name is blank |
| Consistency.DeleteDirHaltsIffRoot | FTP.py:181-187 | for a plain path DeleteDir halts exactly on "/" |
| Behaviour.PwdCalm | FTP.py:222-240 | without faults PWD halts exactly when the cache and the server directory differ under ComparePaths, and otherwise returns the server directory, changing nothing |
| Behaviour.CwdCalm | FTP.py:92-112 | without faults, for a target that is "/", "..", a canonical path or relative names, CWD returns True when the target equals the cache, or when the resolved directory exists, in which case cache and server both move there; otherwise it returns False and nothing changes |
| Behaviour.CwdEmptyRaises | FTP.py:75 | CWD("") raises: the server accepts it and UpdateCurpath then indexes an empty string |
| Behaviour.CwdTrailingSlash | FTP.py:84-87 | CWD("a/") succeeds but caches the path with its trailing "/" |
| Behaviour.ParentAfterTrailingSlashHalts | FTP.py:235-238 | from a cache ending in "/", CWD("..") leaves the cache one level below the server and the follow-up PWD halts |
| Behaviour.TrailingSlashThenParentHalts | FTP.py:92-112 | CWD("a/") followed by CWD("..") halts the program |
| Behaviour.NameAfterTrailingSlashHalts | FTP.py:82-87 | from a cache ending in "/", CWD("b") of an existing directory caches the path with "//" before "b" while the server has one "/", and the follow-up PWD halts |
| Behaviour.TrailingSlashThenNameHalts | FTP.py:92-112 | CWD("a/") followed by CWD("b"), where "a/b" exists, caches ".../a//b" and halts the program |
| Behaviour.FileExistsHere | FTP.py:293-298 | without faults FileExists of a name is whether the name is listed in the current directory, changing nothing |
| Behaviour.FileExistsTopLevelLooksHere | FTP.py:283-291 | FileExists("/a") asks the same as FileExists("a"): it looks in the current directory, not in "/" |
| Behaviour.FileExistsLooksInWrongDirectory | FTP.py:283-298 | FileExists("a/b/c"): PathExists("a/b") leaves the client in "a", the following CWD("a/b") is resolved below "a" and, when that is missing, fails unnoticed; the answer is whether "b" and "c" are both listed in "a", and the client is left in "a" |
| Behaviour.PathExistsName | FTP.py:258-269 | PathExists of a name is whether it is listed in the current directory, and nothing changes |
| Behaviour.PathExistsAbsolute | FTP.py:250-256 | PathExists of a canonical absolute path first moves client and server to "/": "/" answers True, anything else is FileExists of the path without its leading "/", asked from "/" |
| Behaviour.PathExistsTopLevel | FTP.py:250-256 | PathExists("/x") is whether "x" is listed in "/", and the client is left at "/" whatever the answer |
| Behaviour.PathExistsTwoNames | FTP.py:258-269 | PathExists("a/b") for an existing "a" moves into "a" and answers whether "b" is listed there |
| Behaviour.PathExistsAbsoluteLooksInWrongDirectory | FTP.py:250-256 | PathExists("/a/b/c"), when "/a/a/b" is missing, answers whether "b" and "c" are both listed in "/a", and leaves the client in "/a" |
| Behaviour.CwdDotHalts | FTP.py:73-112 | CWD(".") is accepted by the server, which stays, while the cache gains "/."; the following PWD halts |
| Behaviour.FileExistsDotHalts | FTP.py:283-291 | FileExists("./x") halts: PathExists(".") finds "." listed and the CWD(".") that follows halts |
| Behaviour.MkdCalm | FTP.py:117-127 | without faults MKD of a new name returns True and adds an empty directory listed in the current one |
| Behaviour.MkdExisting | FTP.py:117-127 | without faults MKD of a name already listed changes nothing and returns False, unless the name is the refusal text itself, which the reply == name test accepts |
| Behaviour.DeleteFileCalm | FTP.py:131-150 | without faults DeleteFile returns True for an absent name (no-op), and for a file, which it removes from the listing; it returns False for a directory and changes nothing |
| Behaviour.DeleteFileIdempotent | FTP.py:138-140 | a successful DeleteFile followed by the same DeleteFile returns True and changes nothing |
| Behaviour.RenameMissing | FTP.py:161-163 | Rename of an absent name returns False and changes nothing |
| Behaviour.RenameCalm | FTP.py:154-173 | without faults Rename of a file returns True exactly when the new name is not a directory, replacing the old name by the new one |
| Behaviour.WalkCalm | FTP.py:330-346 | without faults and without creation the walk enters components in order, stops at the first missing one, leaves the client in the last directory reached and returns True only when all were entered |
| Behaviour.SetDirectoryCalm | FTP.py:310-346 | SetDirectory of an absolute path returns True at once when it is the cache; otherwise it moves to the deepest existing prefix and returns whether that is the whole path |
| Behaviour.SetDirectoryRelativeCalm | FTP.py:322-346 | for a relative path the walk starts at the cached directory |
| Behaviour.SetDirectoryCreates | FTP.py:310-346 | with creation the result is consistent; no directory disappears, every listing only gains names at its end, and only directories on the path from "/" to the target are new or changed; a True result leaves the client at the path, which then exists unless the shortcut trusted a stale cache; True exactly when no name on the path is a file, except that the shortcut answers True for the cached path |
| Behaviour.SetDirectoryTrustsStaleCache | FTP.py:314-320 | after DeleteDir("/x") the cache still names "/x", and SetDirectory("/x", create) returns True with "/x" missing |
| Behaviour.ReconnectReplays | FTP.py:61-66 | after the login and cwd "/", Reconnect resets the cache to "/" and replays the old cached path, returning True unless the replay raises or halts |
| Behaviour.ReconnectRestores | FTP.py:45-66 | from a consistent state with no faults Reconnect returns True at the deepest existing prefix of the old path, and exactly at the old path when it still exists |
| Behaviour.NlstCalm | FTP.py:561-570 | Nlst of an existing directory moves there and returns its entries without "." and ".." |
| Behaviour.NlstHere | FTP.py:566-570 | Nlst("") lists the current directory and changes nothing |
| Behaviour.DeleteDirMissing | FTP.py:189-191 | DeleteDir of an absent name returns True and changes nothing |
| Behaviour.DeleteEachCalm | FTP.py:195-196 | deleting each listed name removes exactly the names that are files from the current directory and touches no other directory |
| Behaviour.DeleteDirTopLevel | FTP.py:179-206 | DeleteDir("/x") from "/" of a directory holding only files empties it, removes it, returns True, and leaves the cached path at "/x" |
| Behaviour.NlstName | FTP.py:561-570 | Nlst of a directory named in the current one returns its entries and moves client and server into it |
| Behaviour.DeleteDirLeavesSubdirectory | FTP.py:177-206 | DeleteDir("/x") of a directory holding a subdirectory deletes the files, keeps the subdirectory, returns False and leaves "/x" in place |
| Behaviour.DeleteDirRelativeMisses | FTP.py:189-206 | DeleteDir("d") of a directory of files named in the current one deletes the files, but the rmd is resolved inside "d" and refused: False, with "d" left empty |
| Intended.DeleteEntryCalm | FTP.py:177-178 | one step of the corrected loop deletes a listed file, removes a listed empty directory, and changes nothing for an unlisted name |
| Intended.DeleteContentsCalm | FTP.py:177-178 | the corrected loop takes exactly the listed files and empty directories among the names out of the current directory and changes no other directory |
| Intended.DeleteDirIntendedRemovesTop | FTP.py:177-178 | the corrected DeleteDir("/x") from "/" of a directory holding files and empty directories returns True, removes it and exactly the directories it held, drops "x" from "/", and changes no other directory |
| Intended.LookUpInCalm | FTP.py:287-298 | the corrected look-up, CWD to a canonical directory and then the listing, answers whether that directory lists the name and changes no directory |
| Intended.HolderAbsolute | FTP.py:283-285 | for a canonical path below "/", the directory the corrected FileExists looks in is the path without its last segment, and the last part is that segment |
| Intended.HolderRelative | FTP.py:283-285 | for a relative path of names with "/", that directory is the current one followed by all names but the last, and the last part is the last name |
| Intended.FileExistsIntendedAnswers | FTP.py:272-273 | the corrected FileExists of "/" or of any plain path answers whether the path exists, that is whether its last segment is listed in the directory holding it, and changes no directory |
| Intended.PathExistsIntendedAnswers | FTP.py:243-244 | the corrected PathExists of "/" or of any plain path gives the same answer |
| Intended.DeleteDirIntendedRemoves | FTP.py:177-178 | the corrected DeleteDir of a directory named in the current one, holding files and empty directories, returns True, removes it and exactly the directories it held, drops its name from the current directory, and changes no other directory |
| Client.FtpClient.constructor | FTP.py:16-18 | a new client starts at "/", with no credentials and no connection |
| Client.FtpClient.UpdateCurpath | FTP.py:73-87 | raises exactly for "", leaves the cache unchanged then, and otherwise sets the new cached path; nothing else changes |
| Client.FtpClient.Call | FTP.py:99-101 | the outcome and new state equal Engine.Send |
| Client.FtpClient.Retrying | FTP.py:99-105 | the outcome and new state equal Engine.Retrying |
| Client.FtpClient.Reconnect | FTP.py:45-66 | the outcome and new state equal Engine.Reconnect |
| Client.FtpClient.Pwd | FTP.py:222-240 | the outcome and new state equal Engine.Pwd |
| Client.FtpClient.Cwd | FTP.py:92-112 | the outcome and new state equal Engine.Cwd |
| Client.FtpClient.Mkd | FTP.py:117-127 | the outcome and new state equal Engine.Mkd |
| Client.FtpClient.FileExists | FTP.py:274-303 | the outcome and new state equal Engine.FileExists |
| Client.FtpClient.LookUp | FTP.py:293-303 | the outcome and new state equal Engine.LookUp |
| Client.FtpClient.PathExists | FTP.py:245-269 | the outcome and new state equal Engine.PathExists |
| Client.FtpClient.SetDirectory | FTP.py:310-327 | the outcome and new state equal Engine.SetDirectory |
| Client.FtpClient.Walk | FTP.py:330-346 | the component loop gives the outcome and new state of Engine.Walk |
| Client.FtpClient.Ensure | FTP.py:332-339 | the outcome and new state equal Engine.Ensure |
| Client.FtpClient.DeleteFile | FTP.py:131-150 | the outcome and new state equal Engine.DeleteFile |
| Client.FtpClient.Rename | FTP.py:154-173 | the outcome and new state equal Engine.Rename |
| Client.FtpClient.Nlst | FTP.py:561-570 | the outcome and new state equal Engine.Nlst |
| Client.FtpClient.DeleteDir | FTP.py:179-206 | the outcome and new state equal Engine.DeleteDir |
| Client.FtpClient.DeleteEach | FTP.py:195-196 | the loop over listed files gives the outcome and new state of Engine.DeleteEach |
| Client.FtpClient.OpenConnection | FTP.py:23-26 | the outcome and new state equal Engine.OpenConnection |

## Left out

- The ftplib connection itself is not modelled: TLS setup, `prot_p` and the byte streams of `storbinary`/`retrbinary`. A connection is a flag; a transport failure is an entry in the fault schedule; the server is the model in `remote.dfy`.
- ftplib raises `error_perm` on a 5xx reply. The model instead returns negative replies as text, which is what the client's prefix tests expect. So, for example, a CWD to a missing directory returns False rather than reconnecting, retrying and raising.
- The model's server renames files only, and uses Pure-FTPd's reply wording. Every consistency lemma depends on that wording. CWD updates the cache only when the reply starts with "250 OK." (FTP.py:108). A server that answers a successful cwd with other text, say "250 Directory successfully changed.", moves while the cache stays, and the next PWD halts. The consistency lemmas say nothing about such a server.
- `assert False` is modelled as a halt (`Halted`). That holds only when Python runs with assertions enabled; under `python -O` the assertions are removed and execution continues past them. That mode is not modelled.
- A path with a "." component breaks the cache: CWD(".") appends "/." to the cache while the server stays put, so the next PWD halts (`Behaviour.CwdDotHalts`, `Behaviour.FileExistsDotHalts`). This is why the consistency lemmas for FileExists, DeleteFile, Rename and Nlst ask for arguments without such components.
- Reading the credentials file (FTP.py:24-25) is left out: `OpenConnection` takes the parsed credentials as a map. `GetEditor` is a dictionary lookup and is left out.
- `Log`, `LogFlush` and the `g_dologging` switch are left out: they only write log output.
- `PutString`, `AppendString`, `PutFileAsString`, `PutFile`, `GetAsString`, `GetFileAsString`, `CopyFile`, `CopyAndRenameFile` and `BackupServerFile` are left out. They are temporary-file and transfer plumbing. Only the `GetAsString` banner test (FTP.py:537) is modelled. `TimestampFilename` lives in another module and is not part of this model.
- The advisory lock protocol is not part of this model: it does not appear in FTP.py.
- The model has a single caller. The class-level fields (`g_ftp`, `g_curdirpath`, `g_credentials`) become the fields of one `FtpClient` object, and concurrent use is not modelled.
- `None` arguments are left out. `SetDirectory(None)` is covered by the empty-string case; the other methods would raise on `None`.
- The `len(path) == 0` branch of `PathExists` (FTP.py:260-261) is dead, because `split` never returns an empty list (`Text.Split` ensures at least one piece). It is not modelled separately.
- `Client.FtpClient.UpdateCurpath`: Python's `IndexError` for `newdir == ""` is modelled as a returned flag. `Cwd` turns that flag into `Raised`.
- Consistency lemmas: when an exception escapes an operation (a second fault during a retry or a replay), the cached path can be left disagreeing with the server. The lemmas then promise only that nothing halted. Consistency is promised only when a value is returned.
- Behaviour lemmas assume no faults and a consistent state. Under faults, only the safety facts of the consistency lemmas are proved.

## Findings

The Engine and the Client follow the code as written. The corrected operations are in `intended.dfy`.

- The comment on `DeleteDir` (FTP.py:177-178) says it removes a leaf directory together with the files and empty directories it holds. The code does less. `Intended.DeleteDirIntended` removes with rmd each name DeleteFile refuses, and its final rmd uses the absolute path the client computed before the listing moved it.
- The comment on `FileExists` (FTP.py:272-273) says the name may carry a complete path, and the one on `PathExists` (FTP.py:243-244) promises an answer for "/xxx/yyy/zzz" and for relative paths. The code looks in the wrong directory for most such paths. `Intended.FileExistsIntended` and `Intended.PathExistsIntended` look the last part up in the directory the path names, computed from the cached path before any move.

| source | as written | input that shows it | evidently intended | confidence | as-written member | corrected member |
|---|---|---|---|---|---|---|
| FTP.py:195-196 | the loop calls DeleteFile on every listed name, and the server refuses dele on a directory | DeleteDir("/x") from "/" where "/x" holds an empty directory "/x/e": "/x/e" stays, rmd("/x") is refused, the result is False | empty subdirectories are removed as well, then the directory | not executed | Behaviour.DeleteDirLeavesSubdirectory | Intended.DeleteDirIntendedRemovesTop |
| FTP.py:194-199 | rmd(dirname) sends the argument as given after Nlst(dirname) has moved the client into it | DeleteDir("d") from "/" where "/d" holds only files: the files go, rmd("d") is resolved as "/d/d" and refused, the result is False with "/d" left empty | the directory is removed whether it is named by an absolute or a relative path | not executed | Behaviour.DeleteDirRelativeMisses | Intended.DeleteDirIntendedRemoves |
| FTP.py:283-291 | the directory part of "/a" is "", so no CWD happens and "a" is looked up in the current directory | FileExists("/a") with the client in "/b", where "/a" exists and "/b" lists no "a": the result is False | a leading "/" means the root | not executed | Behaviour.FileExistsTopLevelLooksHere | Intended.FileExistsIntendedAnswers |
| FTP.py:288-291 | PathExists(path) has already moved the client into the first directory of the path, and the following CWD(path) is resolved from there; its failure is ignored | FileExists("a/b/c") from "/", where "/a/b/c" exists, "/a" does not list "c" and "/a/a/b" is missing: the result is False | the last part is looked up in the directory the path names | not executed | Behaviour.FileExistsLooksInWrongDirectory | Intended.FileExistsIntendedAnswers |
| FTP.py:250-256 | an absolute path is handled as CWD("/") and FileExists of the rest, which inherits the previous row | PathExists("/a/b/c") where "/a/b/c" exists, "/a" does not list "c" and "/a/a/b" is missing: the result is False | True exactly when the path exists | not executed | Behaviour.PathExistsAbsoluteLooksInWrongDirectory | Intended.PathExistsIntendedAnswers |
