/** How the client turns server replies into booleans (FTP.py): the prefix
    tests on the text ftplib hands back for cwd, mkd, delete, rename and rmd,
    the first-line test of `IsSuccess`, the prefix test of `GetAsString`, and
    the filter `Nlst` applies to a listing. */
module Replies {
  import opened Text

  /** `msg.startswith("250 OK.")`, the test `CWD` and `Reconnect` apply (FTP.py:56, 108). */
  predicate CwdSucceeded(msg: string)
  {
    StartsWith(msg, "250 OK.")
  }

  /** `msg.startswith("250 ")`, the test of `DeleteFile`, `Rename` and `DeleteDir`
      (FTP.py:150, 173, 206). */
  predicate Completed(msg: string)
  {
    StartsWith(msg, "250 ")
  }

  /** The three replies `MKD` accepts (FTP.py:127). */
  predicate MkdSucceeded(msg: string, name: string)
  {
    msg == name || StartsWith(msg, "250 ") || StartsWith(msg, "257 ")
  }

  /** The only success banner `IsSuccess` knows (FTP.py:408-410). */
  const TransferBanner: string := "226-File successfully transferred"

  /** `IsSuccess`: the first line of the reply is exactly one of the known
      success messages (FTP.py:407-412). */
  predicate IsSuccess(ret: string)
  {
    var first := Split(ret, '\n')[0];
    exists i :: 0 <= i < |[TransferBanner]| && [TransferBanner][i] == first
  }

  /** The test `GetAsString` applies to the same banner: a plain prefix (FTP.py:537). */
  predicate TransferredPrefix(msg: string)
  {
    StartsWith(msg, TransferBanner)
  }

  /** `[x for x in names if x != "." and x != ".."]` (FTP.py:570) */
  function Visible(names: seq<string>): seq<string>
  {
    if names == [] then []
    else if names[0] == "." || names[0] == ".." then Visible(names[1..])
    else [names[0]] + Visible(names[1..])
  }

  // ---------------------------------------------------------------------
  // Lemmas

  /** The first piece of a split is a prefix of the text, followed by the
      separator when it is shorter than the text. */
  lemma {:induction false} SplitFirstPiece(s: string, sep: char)
    ensures var f := Split(s, sep)[0];
      |f| <= |s| && s[..|f|] == f && sep !in f && (|f| < |s| ==> s[|f|] == sep)
    decreases |s|
  {
    if s != [] && s[0] != sep {
      SplitFirstPiece(s[1..], sep);
      var g := Split(s[1..], sep)[0];
      assert Split(s, sep)[0] == [s[0]] + g;
      assert s[..|g| + 1] == [s[0]] + s[1..][..|g|];
    }
  }

  /** `IsSuccess` holds exactly for the banner alone or the banner followed by
      further lines. */
  lemma IsSuccessIff(ret: string)
    ensures IsSuccess(ret) <==> ret == TransferBanner || StartsWith(ret, TransferBanner + "\n")
  {
    var b := TransferBanner;
    var first := Split(ret, '\n')[0];
    assert IsSuccess(ret) <==> first == b by {
      assert [b][0] == b;
    }
    assert '\n' !in b;
    SplitFirstPiece(ret, '\n');
    if first == b {
      if |b| < |ret| {
        assert ret[..|b| + 1] == ret[..|b|] + [ret[|b|]];
        assert StartsWith(ret, b + "\n");
      } else {
        assert ret == ret[..|b|];
      }
    }
    if ret == b {
      SplitNoSep(b, '\n');
    } else if StartsWith(ret, b + "\n") {
      var rest := ret[|b| + 1..];
      assert ret == b + ['\n'] + rest;
      SplitConcat(b, rest, '\n');
      SplitNoSep(b, '\n');
    }
  }

  /** Every reply `IsSuccess` accepts passes the prefix test of `GetAsString`. */
  lemma IsSuccessImpliesPrefix(ret: string)
    requires IsSuccess(ret)
    ensures TransferredPrefix(ret)
  {
    IsSuccessIff(ret);
    if ret != TransferBanner {
      assert ret[..|TransferBanner|] == (ret[..|TransferBanner| + 1])[..|TransferBanner|];
    }
  }

  /** The two tests disagree: a first line that merely begins with the banner
      passes the prefix test and fails `IsSuccess`. */
  lemma PrefixWithoutIsSuccess()
    ensures TransferredPrefix(TransferBanner + ".")
    ensures !IsSuccess(TransferBanner + ".")
  {
    var r := TransferBanner + ".";
    assert r[..|TransferBanner|] == TransferBanner;
    IsSuccessIff(r);
    assert r != TransferBanner by {
      assert |r| != |TransferBanner|;
    }
    assert r[|TransferBanner|] == '.';
  }

  /** The listing filter keeps exactly the entries other than "." and "..". */
  lemma {:induction false} VisibleMembers(names: seq<string>)
    ensures forall x :: x in Visible(names) <==> x in names && x != "." && x != ".."
    decreases |names|
  {
    if names != [] {
      VisibleMembers(names[1..]);
      assert names == [names[0]] + names[1..];
    }
  }

  /** The filter keeps the order: filtering a concatenation filters each part. */
  lemma {:induction false} VisibleAppend(a: seq<string>, b: seq<string>)
    ensures Visible(a + b) == Visible(a) + Visible(b)
    decreases |a|
  {
    if a == [] {
      assert a + b == b;
    } else {
      assert (a + b)[0] == a[0];
      assert (a + b)[1..] == a[1..] + b;
      VisibleAppend(a[1..], b);
      if a[0] != "." && a[0] != ".." {
        assert [a[0]] + (Visible(a[1..]) + Visible(b)) == ([a[0]] + Visible(a[1..])) + Visible(b);
      }
    }
  }

  /** A listing without dot entries passes the filter unchanged. */
  lemma {:induction false} VisibleKeepsPlain(names: seq<string>)
    requires forall i :: 0 <= i < |names| ==> names[i] != "." && names[i] != ".."
    ensures Visible(names) == names
    decreases |names|
  {
    if names != [] {
      VisibleKeepsPlain(names[1..]);
      assert [names[0]] + names[1..] == names;
    }
  }

  /** A server listing, which starts with "." and "..", loses exactly those two. */
  lemma VisibleOfListing(entries: seq<string>)
    requires forall i :: 0 <= i < |entries| ==> entries[i] != "." && entries[i] != ".."
    ensures Visible([".", ".."] + entries) == entries
  {
    VisibleAppend([".", ".."], entries);
    VisibleKeepsPlain(entries);
    assert Visible([".", ".."]) == Visible([".."]) == [] by {
      assert [".", ".."][1..] == [".."];
      assert [".."][1..] == [];
    }
  }
}
