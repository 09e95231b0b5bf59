/** The file-name part of `TextureFromFile` (graphics.cpp:20-43): the
    directory is cut back to its last separator, its backslashes are turned
    into slashes, the path is appended, and the last backslash of the
    result becomes a slash.

    The loop that converts the directory's backslashes replaces each one
    together with the character after it, so every inner backslash also
    deletes the next character. `NormaliseAsWritten` models that loop and
    `TextureFileNameAsWritten` the name the source builds with it;
    `Normalise` replaces only the backslash, and `TextureFileNameCorrected`
    is the name built with it. */
module TexturePath {

  const BACKSLASH: set<char> := {'\\'}
  const SEPARATORS: set<char> := {'/', '\\'}

  /** `find_last_of` / `rfind` of a single-character set: the last index
      holding one of `cs`, or -1 (`npos` stored in an `int`). */
  function LastIndex(s: string, cs: set<char>): (r: int)
    ensures -1 <= r < |s|
    ensures r >= 0 ==> s[r] in cs
    ensures forall j :: r < j < |s| ==> s[j] !in cs
    decreases |s|
  {
    if |s| == 0 then -1
    else if s[|s| - 1] in cs then |s| - 1
    else LastIndex(s[..|s| - 1], cs)
  }

  /** The contract of `LastIndex` singles out one index. */
  lemma LastIndexUnique(s: string, cs: set<char>, r: int)
    requires -1 <= r < |s|
    requires r >= 0 ==> s[r] in cs
    requires forall j :: r < j < |s| ==> s[j] !in cs
    ensures LastIndex(s, cs) == r
  {
  }

  /** The last occurrence in `a + b` is the last one in `b` if there is
      one, else the last one in `a`. */
  lemma LastIndexConcat(a: string, b: string, cs: set<char>)
    ensures LastIndex(a + b, cs) ==
              if LastIndex(b, cs) >= 0 then |a| + LastIndex(b, cs) else LastIndex(a, cs)
  {
    var s := a + b;
    var lb := LastIndex(b, cs);
    var r := if lb >= 0 then |a| + lb else LastIndex(a, cs);
    forall j | r < j < |s| ensures s[j] !in cs {
      if j >= |a| {
        assert s[j] == b[j - |a|];
      } else {
        assert s[j] == a[j];
      }
    }
    if r >= 0 {
      if lb >= 0 { assert s[r] == b[lb]; } else { assert s[r] == a[r]; }
    }
    LastIndexUnique(s, cs, r);
  }

  /** Occurrences of `c` in `s`. */
  function Count(s: string, c: char): (n: nat)
    ensures n <= |s|
    ensures n == 0 <==> c !in s
    decreases |s|
  {
    if |s| == 0 then 0
    else
      var rest := Count(s[1..], c);
      assert c in s <==> s[0] == c || c in s[1..] by {
        if c in s {
          var i :| 0 <= i < |s| && s[i] == c;
          if i > 0 { assert s[1..][i - 1] == c; }
        }
        if c in s[1..] {
          var i :| 0 <= i < |s[1..]| && s[1..][i] == c;
          assert s[i + 1] == c;
        }
      }
      (if s[0] == c then 1 else 0) + rest
  }

  lemma {:induction false} CountConcat(a: string, b: string, c: char)
    ensures Count(a + b, c) == Count(a, c) + Count(b, c)
    decreases |a|
  {
    if |a| > 0 {
      assert (a + b)[0] == a[0];
      assert (a + b)[1..] == a[1..] + b;
      CountConcat(a[1..], b, c);
    } else {
      assert a + b == b;
    }
  }

  /** `std::string::replace(pos, len, by)`: `len` is cut back to the end of
      the string. */
  function Replace(s: string, pos: nat, len: nat, with: string): (r: string)
    requires pos <= |s|
    ensures |r| == pos + |with| + (if pos + len <= |s| then |s| - pos - len else 0)
    ensures r[..pos] == s[..pos] && r[pos..pos + |with|] == with
    ensures r[pos + |with|..] == s[(if pos + len <= |s| then pos + len else |s|)..]
  {
    var end := if pos + len <= |s| then pos + len else |s|;
    s[..pos] + with + s[end..]
  }

  /** `s` with every backslash turned into a slash. */
  function Slashed(s: string): (r: string)
    ensures |r| == |s|
  {
    seq(|s|, i requires 0 <= i < |s| => if s[i] == '\\' then '/' else s[i])
  }

  /** The directory cut back after its last separator (graphics.cpp:26-29):
      a prefix of the directory that is empty or ends with a separator, with
      no separator in what is cut off. */
  function DirPrefix(dir: string): (r: string)
    ensures |r| <= |dir| && r == dir[..|r|]
    ensures |r| > 0 ==> r[|r| - 1] in SEPARATORS
    ensures forall j :: |r| <= j < |dir| ==> dir[j] !in SEPARATORS
  {
    var last := LastIndex(dir, SEPARATORS);
    if last == -1 then "" else dir[..last + 1]
  }

  /** Nothing from past the last backslash on is a backslash. */
  lemma NoneAfterLast(s: string, from: nat)
    requires LastIndex(s, BACKSLASH) < from <= |s|
    ensures '\\' !in s[from..]
  {
  }

  /** Replacing the last backslash, with the character after it when there
      is one, by a slash removes exactly one backslash. */
  lemma DropLastBackslash(s: string, len: nat)
    requires LastIndex(s, BACKSLASH) >= 0 && 1 <= len <= 2
    ensures var i := LastIndex(s, BACKSLASH);
            Count(Replace(s, i, len, "/"), '\\') == Count(s, '\\') - 1
  {
    var i := LastIndex(s, BACKSLASH);
    var end := if i + len <= |s| then i + len else |s|;
    NoneAfterLast(s, i + 1);
    NoneAfterLast(s, end);
    var head, mid, after := s[..i], s[i..i + 1], s[i + 1..];
    assert Count(mid, '\\') == 1 by {
      assert mid[1..] == [];
    }
    assert Count("/", '\\') == 0 by {
      assert "/"[1..] == [];
    }
    assert s == head + mid + after;
    CountConcat(head + mid, after, '\\');
    CountConcat(head, mid, '\\');
    assert Replace(s, i, len, "/") == head + "/" + s[end..];
    CountConcat(head + "/", s[end..], '\\');
    CountConcat(head, "/", '\\');
  }

  /** The conversion loop as written (graphics.cpp:30-38): up to `passes`
      times, replace the last backslash and the character after it by a
      slash. Each pass removes exactly one backslash, so enough passes leave
      none. */
  function NormaliseAsWritten(s: string, passes: nat): (r: string)
    ensures Count(r, '\\') == (if Count(s, '\\') <= passes then 0 else Count(s, '\\') - passes)
    ensures |r| <= |s|
    decreases passes
  {
    if passes == 0 then s
    else
      var i := LastIndex(s, BACKSLASH);
      if i == -1 then s
      else
        DropLastBackslash(s, 2);
        NormaliseAsWritten(Replace(s, i, 2, "/"), passes - 1)
  }

  /** A backslash-free string is its own slashed form. */
  lemma SlashedIdentity(s: string)
    requires '\\' !in s
    ensures Slashed(s) == s
  {
    forall i | 0 <= i < |s| ensures Slashed(s)[i] == s[i] {
      assert s[i] != '\\';
    }
  }

  /** The loop with a replace length of 1: up to `passes` times, turn the
      last backslash into a slash. With at least as many passes as
      backslashes, every backslash becomes a slash and nothing else
      changes. */
  function Normalise(s: string, passes: nat): (r: string)
    ensures |r| == |s|
    ensures Count(s, '\\') <= passes ==> r == Slashed(s)
    decreases passes
  {
    if passes == 0 then
      if '\\' in s then s else SlashedIdentity(s); s
    else
      var i := LastIndex(s, BACKSLASH);
      if i == -1 then SlashedIdentity(s); s
      else
        var s' := Replace(s, i, 1, "/");
        assert s' == s[i := '/'];
        assert Slashed(s') == Slashed(s);
        DropLastBackslash(s, 1);
        Normalise(s', passes - 1)
  }

  /** Turn the last backslash, if any, into a slash (graphics.cpp:40-43). */
  function ReplaceLast(s: string): (r: string)
    ensures LastIndex(s, BACKSLASH) == -1 ==> r == s
    ensures LastIndex(s, BACKSLASH) >= 0 ==> r == s[LastIndex(s, BACKSLASH) := '/']
  {
    var i := LastIndex(s, BACKSLASH);
    if i == -1 then s
    else
      assert Replace(s, i, 1, "/") == s[i := '/'];
      Replace(s, i, 1, "/")
  }

  /** The name `TextureFromFile` would load if its conversion loop replaced
      each backslash alone: the directory's backslashes converted one for
      one. */
  function TextureFileNameCorrected(path: string, dir: string): (r: string)
  {
    ReplaceLast(Normalise(DirPrefix(dir), |dir|) + path)
  }

  /** The name `TextureFromFile` loads, built as the source builds it. */
  function TextureFileNameAsWritten(path: string, dir: string): (r: string)
  {
    ReplaceLast(NormaliseAsWritten(DirPrefix(dir), |dir|) + path)
  }

  /** The converted directory part holds no backslash. */
  lemma SlashedHasNone(d: string)
    ensures LastIndex(Slashed(d), BACKSLASH) == -1
  {
    var nd := Slashed(d);
    forall j | 0 <= j < |nd| ensures nd[j] != '\\' {
      assert nd[j] == (if d[j] == '\\' then '/' else d[j]);
    }
  }

  /** With the one-for-one conversion the loop bound `lenght` always
      suffices: the name is the directory part with every backslash made a
      slash, followed by the path with only its last backslash made a
      slash. */
  lemma FileNameShape(path: string, dir: string)
    ensures TextureFileNameCorrected(path, dir) == Slashed(DirPrefix(dir)) + ReplaceLast(path)
  {
    var nd := Slashed(DirPrefix(dir));
    assert Normalise(DirPrefix(dir), |dir|) == nd;
    SlashedHasNone(DirPrefix(dir));
    LastIndexConcat(nd, path, BACKSLASH);
    var li := LastIndex(path, BACKSLASH);
    if li >= 0 {
      assert (nd + path)[|nd| + li := '/'] == nd + path[li := '/'];
    }
  }

  /** As written, the name is the directory part after the as-written loop,
      which holds no backslash and is no longer than the cut directory,
      followed by the path with only its last backslash made a slash: the
      final replace never reaches back into the directory part. */
  lemma FileNameShapeAsWritten(path: string, dir: string)
    ensures var nd := NormaliseAsWritten(DirPrefix(dir), |dir|);
            && '\\' !in nd && |nd| <= |DirPrefix(dir)|
            && TextureFileNameAsWritten(path, dir) == nd + ReplaceLast(path)
  {
    var nd := NormaliseAsWritten(DirPrefix(dir), |dir|);
    assert '\\' !in nd;
    LastIndexUnique(nd, BACKSLASH, -1);
    LastIndexConcat(nd, path, BACKSLASH);
    var li := LastIndex(path, BACKSLASH);
    if li >= 0 {
      assert (nd + path)[|nd| + li := '/'] == nd + path[li := '/'];
    }
  }

  /** The as-written loop likewise leaves no backslash in the directory part. */
  lemma AsWrittenLeavesNoBackslash(dir: string)
    ensures '\\' !in NormaliseAsWritten(DirPrefix(dir), |dir|)
  {
  }

  /** `sprite::LoadTexture` passes an empty directory (graphics.h:676, 707),
      so both versions load the path with its last backslash made a slash. */
  lemma SpriteTextureName(path: string)
    ensures TextureFileNameCorrected(path, "") == ReplaceLast(path)
    ensures TextureFileNameAsWritten(path, "") == ReplaceLast(path)
  {
    assert DirPrefix("") == "";
    assert "" + path == path;
  }

  /** The directory part of the example below. */
  lemma ExampleDirPrefix()
    ensures DirPrefix("a\\b\\c") == "a\\b\\"
  {
    LastIndexUnique("a\\b\\c", SEPARATORS, 3);
  }

  /** The as-written loop on `a\b\`: the last backslash becomes a slash,
      then the inner one takes the `b` with it. */
  lemma ExampleAsWrittenLoop()
    ensures NormaliseAsWritten("a\\b\\", 5) == "a//"
  {
    var d := "a\\b\\";
    LastIndexUnique(d, BACKSLASH, 3);
    var d1 := Replace(d, 3, 2, "/");
    assert d1 == "a\\b/";
    LastIndexUnique(d1, BACKSLASH, 1);
    var d2 := Replace(d1, 1, 2, "/");
    assert d2 == "a//";
    LastIndexUnique(d2, BACKSLASH, -1);
    assert NormaliseAsWritten(d2, 3) == d2;
  }

  /** The as-written loop turns the directory `a\\b\\c` into `a//`: the
      inner backslash takes the `b` with it. */
  lemma InnerBackslashDropsCharacter()
    ensures TextureFileNameAsWritten("x.png", "a\\b\\c") == "a//x.png"
  {
    ExampleDirPrefix();
    ExampleAsWrittenLoop();
    FileNameShapeAsWritten("x.png", "a\\b\\c");
    LastIndexUnique("x.png", BACKSLASH, -1);
  }

  /** With the one-for-one conversion the same directory gives `a/b/`. */
  lemma InnerBackslashKept()
    ensures TextureFileNameCorrected("x.png", "a\\b\\c") == "a/b/x.png"
  {
    ExampleDirPrefix();
    LastIndexUnique("x.png", BACKSLASH, -1);
    FileNameShape("x.png", "a\\b\\c");
    assert Slashed("a\\b\\") == "a/b/";
  }
}
