/**
 * The pieces of Python's `posixpath` that scope matching relies on:
 * `str.split("/")` and `"/".join`, `normpath`, `join`, `abspath` (with the
 * working directory passed in) and `commonpath`, together with the facts
 * that make component-wise containment checkable.
 */
module PosixPaths {
  import opened Wrappers

  // ------------------------------------------------------------ split / join

  predicate NoSlash(p: string) {
    '/' !in p
  }

  /** `s.split("/")`: the pieces between slashes; there is always at least one. */
  function Split(s: string): (parts: seq<string>)
    ensures |parts| >= 1
    ensures forall i :: 0 <= i < |parts| ==> NoSlash(parts[i])
  {
    if s == [] then [[]]
    else
      var rest := Split(s[1..]);
      if s[0] == '/' then [[]] + rest
      else [[s[0]] + rest[0]] + rest[1..]
  }

  /** `"/".join(parts)`. */
  function Join(parts: seq<string>): string {
    if |parts| == 0 then []
    else if |parts| == 1 then parts[0]
    else parts[0] + "/" + Join(parts[1..])
  }

  /** Joining the pieces of a split gives back the original string, so `Split` is injective. */
  lemma {:induction false} JoinSplit(s: string)
    ensures Join(Split(s)) == s
  {
    if s != [] {
      JoinSplit(s[1..]);
      var rest := Split(s[1..]);
      if s[0] != '/' && |rest| > 1 {
        assert Join(rest) == rest[0] + "/" + Join(rest[1..]);
      }
    }
  }

  lemma {:induction false} SplitAfterPiece(c: string, r: string)
    requires NoSlash(c)
    ensures Split(c + r) == [c + Split(r)[0]] + Split(r)[1..]
  {
    if c != [] {
      assert c[0] in c;
      assert (c + r)[0] == c[0] != '/';
      assert (c + r)[1..] == c[1..] + r;
      SplitAfterPiece(c[1..], r);
      assert [c[0]] + (c[1..] + Split(r)[0]) == c + Split(r)[0];
    } else {
      assert c + r == r;
      assert c + Split(r)[0] == Split(r)[0];
      assert [Split(r)[0]] + Split(r)[1..] == Split(r);
    }
  }

  /** Splitting what `Join` produced from slash-free pieces gives the pieces back. */
  lemma {:induction false} SplitJoin(parts: seq<string>)
    requires |parts| >= 1
    requires forall i :: 0 <= i < |parts| ==> NoSlash(parts[i])
    ensures Split(Join(parts)) == parts
  {
    if |parts| == 1 {
      SplitAfterPiece(parts[0], []);
      assert parts[0] + [] == parts[0];
      assert Split([]) == [[]];
      assert parts == [parts[0]];
    } else {
      SplitJoin(parts[1..]);
      var r := "/" + Join(parts[1..]);
      assert Join(parts) == parts[0] + r;
      SplitAfterPiece(parts[0], r);
      SplitAfterSlash(Join(parts[1..]));
      assert Split(r) == [[]] + parts[1..];
      assert parts[0] + [] == parts[0];
      assert [parts[0]] + parts[1..] == parts;
    }
  }

  lemma SplitAfterSlash(s: string)
    ensures Split("/" + s) == [[]] + Split(s)
  {
    assert ("/" + s)[1..] == s;
  }

  // ------------------------------------------------------------ components

  /** A component `normpath` and `commonpath` keep: not empty, not `.`, no slash. */
  predicate IsComponent(c: string) {
    c != "" && c != "." && NoSlash(c)
  }

  predicate AllComponents(cs: seq<string>) {
    forall i :: 0 <= i < |cs| ==> IsComponent(cs[i])
  }

  /** The pieces that are neither empty nor `.`, in order. */
  function Keep(parts: seq<string>): (cs: seq<string>)
    requires forall i :: 0 <= i < |parts| ==> NoSlash(parts[i])
    ensures AllComponents(cs)
    ensures forall c :: c in cs ==> c in parts
  {
    if parts == [] then []
    else if parts[0] == "" || parts[0] == "." then Keep(parts[1..])
    else [parts[0]] + Keep(parts[1..])
  }

  /** The components of a path as `commonpath` sees them. */
  function Comps(s: string): seq<string> {
    Keep(Split(s))
  }

  predicate IsAbs(s: string) {
    |s| > 0 && s[0] == '/'
  }

  function Slashes(k: nat): (s: string)
    ensures |s| == k && forall i :: 0 <= i < k ==> s[i] == '/'
  {
    seq(k, _ => '/')
  }

  lemma {:induction false} KeepComponents(cs: seq<string>)
    requires AllComponents(cs)
    ensures Keep(cs) == cs
  {
    if cs != [] {
      KeepComponents(cs[1..]);
    }
  }

  lemma KeepEmptyPrefix(k: nat, parts: seq<string>)
    requires forall i :: 0 <= i < |parts| ==> NoSlash(parts[i])
    ensures Keep(seq(k, _ => "") + parts) == Keep(parts)
    decreases k
  {
    var e := seq(k, _ => "");
    if k > 0 {
      assert (e + parts)[0] == "";
      assert (e + parts)[1..] == seq(k - 1, _ => "") + parts;
      KeepEmptyPrefix(k - 1, parts);
    } else {
      assert e + parts == parts;
    }
  }

  /** Splitting a root of `k` slashes followed by clean components gives `k` empty pieces, then the components. */
  lemma {:induction false} SplitRendered(k: nat, cs: seq<string>)
    requires AllComponents(cs)
    ensures Split(Slashes(k) + Join(cs)) == seq(k, _ => "") + (if cs == [] then [""] else cs)
    decreases k
  {
    var tail := if cs == [] then [""] else cs;
    if k == 0 {
      assert Slashes(0) + Join(cs) == Join(cs);
      if cs != [] {
        SplitJoin(cs);
      }
      assert seq(0, _ => "") + tail == tail;
    } else {
      SplitRendered(k - 1, cs);
      assert Slashes(k) + Join(cs) == "/" + (Slashes(k - 1) + Join(cs));
      SplitAfterSlash(Slashes(k - 1) + Join(cs));
      assert [[]] + (seq(k - 1, _ => "") + tail) == seq(k, _ => "") + tail;
    }
  }

  /**
   * Rendering a root of `k` slashes followed by clean components, then taking
   * the components apart again, gives those components back.
   */
  lemma CompsOfRendered(k: nat, cs: seq<string>)
    requires AllComponents(cs)
    ensures Comps(Slashes(k) + Join(cs)) == cs
    ensures k > 0 ==> Split(Slashes(k) + Join(cs)) == seq(k, _ => "") + (if cs == [] then [""] else cs)
    ensures k == 0 ==> Split(Join(cs)) == (if cs == [] then [""] else cs)
  {
    var tail := if cs == [] then [""] else cs;
    SplitRendered(k, cs);
    assert seq(0, _ => "") + tail == tail;
    assert Slashes(0) + Join(cs) == Join(cs);
    KeepEmptyPrefix(k, tail);
    KeepComponents(cs);
  }

  // ------------------------------------------------------------ normpath

  /**
   * How many leading slashes `normpath` keeps: POSIX lets exactly two leading
   * slashes mean something else, so two stay two, while one or three or more
   * become one.
   */
  function RootSlashes(s: string): (k: nat)
    ensures k <= 2
    ensures k > 0 <==> IsAbs(s)
  {
    if |s| > 0 && s[0] == '/' then
      (if |s| >= 2 && s[1] == '/' && !(|s| >= 3 && s[2] == '/') then 2 else 1)
    else 0
  }

  /** One step of `normpath`'s loop over the pieces, with `acc` the components kept so far. */
  function ResolveStep(acc: seq<string>, comp: string, rooted: bool): seq<string> {
    if comp == "" || comp == "." then acc
    else if comp != ".." || (!rooted && acc == []) || (acc != [] && acc[|acc| - 1] == "..") then acc + [comp]
    else if acc != [] then acc[..|acc| - 1]
    else acc
  }

  /** `normpath`'s loop over all pieces, left to right. */
  function Resolve(parts: seq<string>, rooted: bool): (cs: seq<string>)
    requires forall i :: 0 <= i < |parts| ==> NoSlash(parts[i])
    ensures AllComponents(cs)
    ensures rooted ==> ".." !in cs
    ensures ".." !in parts ==> cs == Keep(parts)
  {
    if parts == [] then []
    else
      var init := parts[..|parts| - 1];
      var last := parts[|parts| - 1];
      assert parts == init + [last];
      KeepSnoc(init, last);
      ResolveStep(Resolve(init, rooted), last, rooted)
  }

  lemma {:induction false} KeepSnoc(parts: seq<string>, last: string)
    requires forall i :: 0 <= i < |parts| ==> NoSlash(parts[i])
    requires NoSlash(last)
    ensures Keep(parts + [last]) == Keep(parts) + (if last == "" || last == "." then [] else [last])
  {
    if parts != [] {
      assert (parts + [last])[1..] == parts[1..] + [last];
      KeepSnoc(parts[1..], last);
    } else {
      assert Keep([last]) == (if last == "" || last == "." then [] else [last]) + Keep([]);
    }
  }

  /** The root and the components `normpath` produces; the string is `Render` of these. */
  function NormParts(s: string): (r: (nat, seq<string>))
    ensures r.0 == RootSlashes(s) && AllComponents(r.1)
    ensures r.0 > 0 ==> ".." !in r.1
  {
    var k := RootSlashes(s);
    (k, Resolve(Split(s), k > 0))
  }

  function Render(k: nat, cs: seq<string>): string {
    var r := Slashes(k) + Join(cs);
    if r == "" then "." else r
  }

  /** `os.path.normpath(s)` on POSIX. */
  function Normpath(s: string): string {
    if s == "" then "."
    else
      var (k, cs) := NormParts(s);
      Render(k, cs)
  }

  /** `os.path.join(a, b)` for two arguments on POSIX. */
  function JoinPath(a: string, b: string): string {
    if IsAbs(b) then b
    else if a == "" || a[|a| - 1] == '/' then a + b
    else a + "/" + b
  }

  /** `os.path.abspath(s)` where `cwd` is what `os.getcwd()` returns. */
  function AbsPath(cwd: string, s: string): string {
    Normpath(if IsAbs(s) then s else JoinPath(cwd, s))
  }

  /** Longest common leading run of two component lists. */
  function CommonPrefix(xs: seq<string>, ys: seq<string>): (p: seq<string>)
    ensures p <= xs && p <= ys
    ensures |p| < |xs| && |p| < |ys| ==> xs[|p|] != ys[|p|]
  {
    if xs == [] || ys == [] || xs[0] != ys[0] then []
    else [xs[0]] + CommonPrefix(xs[1..], ys[1..])
  }

  /**
   * `os.path.commonpath([a, b])`; `None` stands for the `ValueError` raised when
   * one path is absolute and the other relative. (Python takes the common
   * prefix of the smallest and the largest component list, which for two
   * lists is their common prefix.)
   */
  function CommonPath(a: string, b: string): Option<string> {
    if IsAbs(a) != IsAbs(b) then None
    else Some((if IsAbs(a) then "/" else "") + Join(CommonPrefix(Comps(a), Comps(b))))
  }

  // ------------------------------------------------------------ facts

  lemma SplitDot()
    ensures Split(".") == ["."]
    ensures Comps(".") == []
  {
    assert "."[1..] == [];
    assert Split([]) == [[]];
    assert ['.'] + [] == ".";
    assert Split(".") == [['.'] + Split([])[0]] + Split([])[1..];
  }

  /** What `Normpath` returns, seen through `Comps` and `Split`. */
  lemma NormpathShape(s: string)
    ensures var (k, cs) := NormParts(s);
      && Comps(Normpath(s)) == cs
      && RootSlashes(Normpath(s)) == k
      && (k > 0 ==> Normpath(s) == Slashes(k) + Join(cs))
  {
    var (k, cs) := NormParts(s);
    if s == "" {
      SplitDot();
    } else {
      CompsOfRendered(k, cs);
      var r := Slashes(k) + Join(cs);
      if r == "" {
        SplitDot();
      } else if k == 0 {
        assert IsComponent(cs[0]);
        assert Split(Join(cs)) == cs;
      } else {
        assert r[0] == '/';
        if k == 2 {
          assert r[1] == '/';
          if |r| >= 3 {
            assert Split(r)[2] == cs[0];
            assert r[2] != '/';
          }
        } else if |r| >= 2 {
          assert Split(r)[1] == cs[0];
          assert r[1] != '/';
        }
      }
    }
  }

  /**
   * `normpath` never introduces a `..`: when the input has no `..` piece the
   * output has none either, and its components are exactly the input's
   * non-empty, non-`.` pieces.
   */
  lemma NormpathNoDotDot(s: string)
    requires ".." !in Split(s)
    ensures ".." !in Split(Normpath(s))
    ensures Comps(Normpath(s)) == Comps(s)
  {
    NormpathShape(s);
    var (k, cs) := NormParts(s);
    if s != "" {
      CompsOfRendered(k, cs);
      var r := Slashes(k) + Join(cs);
      assert cs == Keep(Split(s));
      assert ".." !in cs;
      if r == "" {
        SplitDot();
      } else if k > 0 {
        var tail := if cs == [] then [""] else cs;
        assert Split(r) == seq(k, _ => "") + tail;
        assert ".." !in seq(k, _ => "");
        assert ".." !in tail;
      } else {
        assert r == Join(cs) && cs != [];
        assert Split(r) == cs;
      }
    } else {
      SplitDot();
    }
  }

  /** `abspath` with an absolute working directory always yields an absolute path. */
  lemma AbsPathIsAbs(cwd: string, s: string)
    requires IsAbs(cwd)
    ensures IsAbs(AbsPath(cwd, s))
  {
    var t := if IsAbs(s) then s else JoinPath(cwd, s);
    assert IsAbs(t);
    NormpathShape(t);
  }

  /**
   * A path written as one slash followed by clean components (no `.`, `..` or
   * empty piece) is its own `normpath` and its own `abspath`.
   */
  lemma CanonicalAbsolutePath(cs: seq<string>, cwd: string)
    requires AllComponents(cs) && ".." !in cs
    ensures Normpath("/" + Join(cs)) == "/" + Join(cs)
    ensures AbsPath(cwd, "/" + Join(cs)) == "/" + Join(cs)
    ensures Comps("/" + Join(cs)) == cs
    ensures Split("/" + Join(cs)) == [""] + (if cs == [] then [""] else cs)
  {
    var p := "/" + Join(cs);
    assert Slashes(1) == "/";
    CompsOfRendered(1, cs);
    var parts := Split(p);
    assert ".." !in parts;
    assert RootSlashes(p) == 1 by {
      if |p| >= 2 {
        assert parts[1] == cs[0];
        assert p[1] == Join(cs)[0];
        if cs != [] && |cs| > 1 {
          assert Join(cs) == cs[0] + "/" + Join(cs[1..]);
        }
        assert cs[0] != "" && cs[0][0] in cs[0];
      }
    }
  }
}
