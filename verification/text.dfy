/** The Python string operations the FTP client relies on: `str.startswith`,
    `str.split(sep)`, `sep.join(parts)` and `str.strip()`, with their exact
    edge cases (empty pieces are kept by `split`, `join([])` is empty). */
module Text {

  /** `s.startswith(prefix)` */
  predicate StartsWith(s: string, prefix: string)
  {
    |prefix| <= |s| && s[..|prefix|] == prefix
  }

  /** `c.isspace()` for a single character: the Unicode whitespace set Python uses. */
  predicate IsSpace(c: char)
  {
    var n := c as int;
    n == 0x20 || (0x09 <= n <= 0x0D) || (0x1C <= n <= 0x1F) || n == 0x85 || n == 0xA0
    || n == 0x1680 || (0x2000 <= n <= 0x200A) || n == 0x2028 || n == 0x2029
    || n == 0x202F || n == 0x205F || n == 0x3000
  }

  /** `s.split(sep)` with an explicit separator: never drops a piece, so
      `"".split("/") == [""]` and `"a//b/".split("/") == ["a", "", "b", ""]`. */
  function Split(s: string, sep: char): (parts: seq<string>)
    ensures |parts| >= 1
    decreases |s|
  {
    if s == [] then [""]
    else
      var rest := Split(s[1..], sep);
      if s[0] == sep then [""] + rest
      else [[s[0]] + rest[0]] + rest[1..]
  }

  /** No piece holds the separator, and no piece is longer than the text. */
  lemma {:induction false} SplitPieces(s: string, sep: char)
    ensures forall i :: 0 <= i < |Split(s, sep)| ==> sep !in Split(s, sep)[i] && |Split(s, sep)[i]| <= |s|
    decreases |s|
  {
    if s != [] {
      SplitPieces(s[1..], sep);
      var rest := Split(s[1..], sep);
      if s[0] != sep {
        assert sep !in [s[0]] + rest[0];
      }
    }
  }

  /** Text without the separator is one piece. */
  lemma {:induction false} SplitNoSep(s: string, sep: char)
    requires sep !in s
    ensures Split(s, sep) == [s]
    decreases |s|
  {
    if s != [] {
      SplitNoSep(s[1..], sep);
      assert [s[0]] + s[1..] == s;
    }
  }

  /** `sep.join(parts)` */
  function Join(parts: seq<string>, sep: char): string
  {
    if |parts| == 0 then ""
    else if |parts| == 1 then parts[0]
    else parts[0] + [sep] + Join(parts[1..], sep)
  }

  function Last<T>(s: seq<T>): T
    requires |s| > 0
  {
    s[|s| - 1]
  }

  function DropLast<T>(s: seq<T>): seq<T>
    requires |s| > 0
  {
    s[..|s| - 1]
  }

  /** Joining the pieces of a split gives the string back. */
  lemma {:induction false} JoinSplit(s: string, sep: char)
    ensures Join(Split(s, sep), sep) == s
    decreases |s|
  {
    if s != [] {
      var rest := Split(s[1..], sep);
      JoinSplit(s[1..], sep);
      if s[0] == sep {
        assert Split(s, sep) == [""] + rest;
        assert Join([""] + rest, sep) == "" + [sep] + Join(rest, sep) by {
          assert ([""] + rest)[1..] == rest;
        }
        assert s == [sep] + s[1..];
      } else if |rest| == 1 {
        assert Split(s, sep) == [[s[0]] + rest[0]];
        assert s == [s[0]] + s[1..];
      } else {
        var parts := [[s[0]] + rest[0]] + rest[1..];
        assert parts[1..] == rest[1..];
        assert Join(parts, sep) == [s[0]] + (rest[0] + [sep] + Join(rest[1..], sep));
        assert s == [s[0]] + s[1..];
      }
    }
  }

  /** The first piece of a split is empty exactly when the text starts with the separator. */
  lemma SplitHead(s: string, sep: char)
    ensures s != [] && s[0] == sep ==> Split(s, sep)[0] == ""
    ensures s != [] && s[0] != sep ==> Split(s, sep)[0] != "" && Split(s, sep)[0][0] == s[0]
  {
  }

  lemma SplitConcatEmpty(b: string, sep: char)
    ensures Split([sep] + b, sep) == [""] + Split(b, sep)
  {
    assert ([sep] + b)[1..] == b;
  }

  lemma SplitCons(c: char, a: string, sep: char)
    ensures c == sep ==> Split([c] + a, sep) == [""] + Split(a, sep)
    ensures c != sep ==> Split([c] + a, sep) == [[c] + Split(a, sep)[0]] + Split(a, sep)[1..]
  {
    assert ([c] + a)[0] == c;
    assert ([c] + a)[1..] == a;
  }

  lemma SplitConcatStepSep(a: string, b: string, sep: char)
    requires Split(a + [sep] + b, sep) == Split(a, sep) + Split(b, sep)
    ensures Split([sep] + a + [sep] + b, sep) == Split([sep] + a, sep) + Split(b, sep)
  {
    var t := a + [sep] + b;
    assert [sep] + a + [sep] + b == [sep] + t;
    SplitCons(sep, t, sep);
    SplitCons(sep, a, sep);
    assert [""] + (Split(a, sep) + Split(b, sep)) == ([""] + Split(a, sep)) + Split(b, sep);
  }

  lemma ConsFirstPiece(c: char, r: seq<string>, rb: seq<string>)
    requires |r| >= 1
    ensures [[c] + (r + rb)[0]] + (r + rb)[1..] == ([[c] + r[0]] + r[1..]) + rb
  {
    assert (r + rb)[0] == r[0];
    assert (r + rb)[1..] == r[1..] + rb;
  }

  lemma SplitConcatStepOther(c: char, a: string, b: string, sep: char)
    requires c != sep
    requires Split(a + [sep] + b, sep) == Split(a, sep) + Split(b, sep)
    ensures Split([c] + a + [sep] + b, sep) == Split([c] + a, sep) + Split(b, sep)
  {
    var t := a + [sep] + b;
    assert [c] + a + [sep] + b == [c] + t;
    SplitCons(c, t, sep);
    SplitCons(c, a, sep);
    ConsFirstPiece(c, Split(a, sep), Split(b, sep));
  }

  /** A separator splits the text into the pieces before it and the pieces after it. */
  lemma {:induction false} SplitConcat(a: string, b: string, sep: char)
    ensures Split(a + [sep] + b, sep) == Split(a, sep) + Split(b, sep)
    decreases |a|
  {
    if a == [] {
      assert a + [sep] + b == [sep] + b;
      SplitConcatEmpty(b, sep);
    } else {
      SplitConcat(a[1..], b, sep);
      if a[0] == sep {
        assert a == [sep] + a[1..];
        SplitConcatStepSep(a[1..], b, sep);
      } else {
        assert a == [a[0]] + a[1..];
        SplitConcatStepOther(a[0], a[1..], b, sep);
      }
    }
  }

  /** Splitting the join of separator-free pieces gives the pieces back. */
  lemma {:induction false} SplitJoin(parts: seq<string>, sep: char)
    requires |parts| >= 1
    requires forall i :: 0 <= i < |parts| ==> sep !in parts[i]
    ensures Split(Join(parts, sep), sep) == parts
    decreases |parts|
  {
    if |parts| > 1 {
      SplitJoin(parts[1..], sep);
      SplitConcat(parts[0], Join(parts[1..], sep), sep);
      SplitNoSep(parts[0], sep);
      assert [parts[0]] + parts[1..] == parts;
    } else {
      SplitNoSep(parts[0], sep);
    }
  }

  /** Joining one more piece adds one separator. */
  lemma {:induction false} JoinSnoc(parts: seq<string>, p: string, sep: char)
    requires |parts| >= 1
    ensures Join(parts + [p], sep) == Join(parts, sep) + [sep] + p
    decreases |parts|
  {
    if |parts| > 1 {
      assert (parts + [p])[1..] == parts[1..] + [p];
      JoinSnoc(parts[1..], p, sep);
    }
  }

  /** Joining two non-empty lists of pieces puts one separator between them. */
  lemma {:induction false} JoinAppend(a: seq<string>, b: seq<string>, sep: char)
    requires |a| >= 1 && |b| >= 1
    ensures Join(a + b, sep) == Join(a, sep) + [sep] + Join(b, sep)
    decreases |a|
  {
    if |a| > 1 {
      assert (a + b)[1..] == a[1..] + b;
      JoinAppend(a[1..], b, sep);
    } else {
      assert (a + b)[1..] == b;
    }
  }

  /** A string with a separator in it splits into at least two pieces, and it
      is the join of all pieces but the last, the separator, then the last piece. */
  lemma SplitLastPiece(s: string, sep: char)
    requires sep in s
    ensures |Split(s, sep)| >= 2
    ensures Join(DropLast(Split(s, sep)), sep) + [sep] + Last(Split(s, sep)) == s
    ensures |Join(DropLast(Split(s, sep)), sep)| + 1 + |Last(Split(s, sep))| == |s|
  {
    var parts := Split(s, sep);
    JoinSplit(s, sep);
    if |parts| == 1 {
      assert false;
    }
    assert parts == DropLast(parts) + [Last(parts)];
    JoinSnoc(DropLast(parts), Last(parts), sep);
  }

  /** `s.lstrip()` */
  function StripLeft(s: string): (r: string)
    ensures |r| <= |s| && r == s[|s| - |r|..]
    ensures r == [] || !IsSpace(r[0])
    ensures forall i :: 0 <= i < |s| - |r| ==> IsSpace(s[i])
    decreases |s|
  {
    if s != [] && IsSpace(s[0]) then StripLeft(s[1..]) else s
  }

  /** `s.rstrip()` */
  function StripRight(s: string): (r: string)
    ensures |r| <= |s| && r == s[..|r|]
    ensures r == [] || !IsSpace(r[|r| - 1])
    ensures forall i :: |r| <= i < |s| ==> IsSpace(s[i])
    decreases |s|
  {
    if s != [] && IsSpace(s[|s| - 1]) then StripRight(s[..|s| - 1]) else s
  }

  /** `s.strip()`: what is left once whitespace is removed from both ends. */
  function Strip(s: string): (r: string)
    ensures |r| <= |s|
    ensures r == [] || (!IsSpace(r[0]) && !IsSpace(r[|r| - 1]))
  {
    StripRight(StripLeft(s))
  }

  /** `strip()` only removes characters: a character absent from the text is absent from the result. */
  lemma StripKeepsOut(s: string, c: char)
    requires c !in s
    ensures c !in Strip(s)
  {
    var l := StripLeft(s);
    var r := StripRight(l);
    assert r == l[..|r|];
    assert l == s[|s| - |l|..];
  }

  /** `len(s.strip()) == 0`: the string holds nothing but whitespace. */
  predicate Blank(s: string)
  {
    Strip(s) == []
  }

  /** Blank is exactly "every character is whitespace". */
  lemma BlankIffAllSpace(s: string)
    ensures Blank(s) <==> forall i :: 0 <= i < |s| ==> IsSpace(s[i])
  {
    var l := StripLeft(s);
    if Blank(s) {
      if l != [] {
        assert false;
      }
    }
    if forall i :: 0 <= i < |s| ==> IsSpace(s[i]) {
      if l != [] {
        assert false;
      }
    }
  }

  /** A string with no whitespace at either end is left as it is by `strip()`. */
  lemma StripTrimmed(s: string)
    requires s == [] || (!IsSpace(s[0]) && !IsSpace(s[|s| - 1]))
    ensures Strip(s) == s
  {
  }

  /** Stripping twice is stripping once. */
  lemma StripIdempotent(s: string)
    ensures Strip(Strip(s)) == Strip(s)
  {
    StripTrimmed(Strip(s));
  }
}
