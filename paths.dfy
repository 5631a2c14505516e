/** `str(Path(p))` for POSIX paths: pathlib drops empty and `.` segments,
    keeps a root of one slash (or exactly two), and spells an empty
    relative path `.`. */
module Paths {
  import opened Sequences

  /** `s.split("/")`: the segments between slashes, empty ones included. */
  function Split(s: string): (r: seq<string>)
    ensures |r| > 0
  {
    if |s| == 0 then [""]
    else
      var rest := Split(s[1..]);
      if s[0] == '/' then [""] + rest else [[s[0]] + rest[0]] + rest[1..]
  }

  /** A segment pathlib keeps: neither empty nor `.`. */
  function Kept(x: string): bool {
    x != "" && x != "."
  }

  /** `"/".join(parts)`. */
  function JoinSegments(parts: seq<string>): string {
    if |parts| == 0 then ""
    else if |parts| == 1 then parts[0]
    else parts[0] + "/" + JoinSegments(parts[1..])
  }

  /** The root pathlib keeps: exactly two leading slashes stay two, one or
      three and more become one. */
  function Root(p: string): string {
    if |p| >= 2 && p[0] == '/' && p[1] == '/' && (|p| == 2 || p[2] != '/') then "//"
    else if |p| >= 1 && p[0] == '/' then "/"
    else ""
  }

  /** `str(Path(p))`. */
  function NormPath(p: string): (r: string)
    ensures |r| > 0
  {
    var s := Root(p) + JoinSegments(Filter(Split(p), Kept));
    if s == "" then "." else s
  }

  lemma Split1(c: char)
    requires c != '/'
    ensures Split([c]) == [[c]]
  {
    assert [c][1..] == "";
    assert [c] + "" == [c];
  }

  lemma SplitStep(t: string, tail: string)
    requires |t| > 0 && t[1..] == tail
    ensures Split(t) == if t[0] == '/' then [""] + Split(tail) else [[t[0]] + Split(tail)[0]] + Split(tail)[1..]
  {
  }

  lemma SplitDotA()
    ensures Split("./a") == [".", "a"]
  {
    Split1('a');
    SplitStep("/a", "a");
    SplitStep("./a", "/a");
    assert ['.'] + "" == ".";
  }

  lemma SplitDoubleSlash()
    ensures Split("o//p") == ["o", "", "p"]
  {
    Split1('p');
    SplitStep("/p", "p");
    SplitStep("//p", "/p");
    assert Split("//p") == ["", "", "p"];
    SplitStep("o//p", "//p");
    assert ['o'] + "" == "o";
  }

  lemma SplitTrailingSlash()
    ensures Split("o/p/") == ["o", "p", ""]
  {
    SplitStep("/", "");
    assert Split("/") == ["", ""];
    SplitStep("p/", "/");
    assert ['p'] + "" == "p";
    assert Split("p/") == ["p", ""];
    SplitStep("/p/", "p/");
    assert Split("/p/") == ["", "p", ""];
    SplitStep("o/p/", "/p/");
    assert ['o'] + "" == "o";
  }

  lemma NormDotA()
    ensures NormPath("./a") == "a"
  {
    SplitDotA();
    assert Filter(["a"], Kept) == ["a"];
    assert Filter([".", "a"], Kept) == ["a"];
  }

  lemma NormDoubleSlash()
    ensures NormPath("o//p") == "o/p"
  {
    SplitDoubleSlash();
    assert Filter(["p"], Kept) == ["p"];
    assert Filter(["", "p"], Kept) == ["p"];
    assert Filter(["o", "", "p"], Kept) == ["o", "p"];
    assert JoinSegments(["o", "p"]) == "o" + "/" + "p";
  }

  lemma NormTrailingSlash()
    ensures NormPath("o/p/") == "o/p"
  {
    SplitTrailingSlash();
    assert Filter([""], Kept) == [];
    assert Filter(["p", ""], Kept) == ["p"];
    assert Filter(["o", "p", ""], Kept) == ["o", "p"];
    assert JoinSegments(["o", "p"]) == "o" + "/" + "p";
  }

  /** `./a` is `a`, `o//p` is `o/p`, `o/p/` is `o/p`, and `.` stays `.`. */
  lemma NormPathExamples()
    ensures NormPath("./a") == "a"
    ensures NormPath("o//p") == "o/p"
    ensures NormPath("o/p/") == "o/p"
    ensures NormPath(".") == "."
  {
    NormDotA();
    NormDoubleSlash();
    NormTrailingSlash();
    Split1('.');
    assert Filter(["."], Kept) == [];
  }

  /** No segment of a split holds a slash. */
  lemma {:induction false} SplitHasNoSlash(s: string)
    ensures forall x :: x in Split(s) ==> '/' !in x
  {
    if |s| > 0 {
      SplitHasNoSlash(s[1..]);
      var rest := Split(s[1..]);
      if s[0] != '/' {
        assert '/' !in [s[0]] + rest[0] by {
          assert rest[0] in rest;
        }
        forall x | x in rest[1..]
          ensures x in rest
        {
        }
      }
    }
  }

  /** Splitting after a slash-free prefix extends the first segment. */
  lemma {:induction false} SplitPrefix(a: string, s: string)
    requires '/' !in a
    ensures Split(a + s) == [a + Split(s)[0]] + Split(s)[1..]
  {
    if |a| == 0 {
      assert a + s == s;
      assert a + Split(s)[0] == Split(s)[0];
      assert [Split(s)[0]] + Split(s)[1..] == Split(s);
    } else {
      assert (a + s)[0] == a[0];
      assert (a + s)[1..] == a[1..] + s;
      SplitPrefix(a[1..], s);
      assert [a[0]] + (a[1..] + Split(s)[0]) == a + Split(s)[0];
    }
  }

  /** Splitting joined slash-free segments gives them back. */
  lemma {:induction false} SplitJoin(parts: seq<string>)
    requires |parts| > 0 && forall x :: x in parts ==> '/' !in x
    ensures Split(JoinSegments(parts)) == parts
  {
    assert parts[0] in parts;
    if |parts| == 1 {
      SplitPrefix(parts[0], "");
      assert parts[0] + "" == parts[0];
    } else {
      var rest := JoinSegments(parts[1..]);
      forall x | x in parts[1..]
        ensures x in parts
      {
      }
      SplitJoin(parts[1..]);
      assert parts[0] + "/" + rest == parts[0] + ("/" + rest);
      SplitPrefix(parts[0], "/" + rest);
      assert ("/" + rest)[1..] == rest;
      assert Split("/" + rest) == [""] + parts[1..];
      assert parts[0] + "" == parts[0];
    }
  }

  /** Joined non-empty segments start with the first segment's first character. */
  lemma {:induction false} JoinStart(parts: seq<string>)
    requires |parts| > 0 && |parts[0]| > 0
    ensures |JoinSegments(parts)| > 0 && JoinSegments(parts)[0] == parts[0][0]
  {
  }

  /** The kept segments of a split: each kept, none with a slash. */
  lemma KeptSegments(p: string)
    ensures forall x :: x in Filter(Split(p), Kept) ==> Kept(x) && '/' !in x
  {
    FilterMembers(Split(p), Kept);
    SplitHasNoSlash(p);
  }

  /** A root of slashes splits off as empty segments, which are not kept. */
  lemma RootSplit(r: string, b: string)
    requires r == "" || r == "/" || r == "//"
    ensures Filter(Split(r + b), Kept) == Filter(Split(b), Kept)
  {
    if r == "/" {
      assert ("/" + b)[1..] == b;
    } else if r == "//" {
      assert ("//" + b)[1..] == "/" + b;
      assert ("/" + b)[1..] == b;
    } else {
      assert r + b == b;
    }
  }

  /** Normalising a normalised path changes nothing: writing the recorded
      path back through `Path` names the same file. */
  lemma NormPathIdempotent(p: string)
    ensures NormPath(NormPath(p)) == NormPath(p)
  {
    var parts := Filter(Split(p), Kept);
    var r, b := Root(p), JoinSegments(parts);
    KeptSegments(p);
    if r + b == "" {
      Split1('.');
      assert Split(".") == ["."];
      assert Filter(["."], Kept) == [];
    } else {
      RootSplit(r, b);
      if |parts| == 0 {
        assert b == "";
        assert Split("") == [""];
        assert Filter([""], Kept) == [];
      } else {
        assert parts[0] in parts;
        SplitJoin(parts);
        FilterAll(parts, Kept);
        JoinStart(parts);
      }
      assert Filter(Split(r + b), Kept) == parts;
      RootOfNormalised(r, b);
    }
  }

  lemma RootOfNormalised(r: string, b: string)
    requires r == "" || r == "/" || r == "//"
    requires r + b != "" && (|b| > 0 ==> b[0] != '/')
    ensures Root(r + b) == r
  {
    if r == "" {
      assert r + b == b;
    } else if r == "/" {
      assert (r + b)[0] == '/';
      assert |r + b| >= 2 ==> (r + b)[1] == b[0];
    } else {
      assert (r + b)[0] == '/' && (r + b)[1] == '/';
      assert |r + b| >= 3 ==> (r + b)[2] == b[0];
    }
  }
}
