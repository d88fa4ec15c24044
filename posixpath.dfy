/**
  The `os.path` functions the backend calls, as POSIX `posixpath` defines
  them: `basename`, `splitext` and two-argument `join`.
 */
module PosixPath {

  /** `s.rfind(c)`: the index of the last `c` in `s`, or -1 when there is none. */
  function RFind(s: string, c: char): (r: int)
    ensures -1 <= r < |s|
    ensures r >= 0 ==> s[r] == c
    ensures forall j :: r < j < |s| ==> s[j] != c
  {
    if s == [] then -1
    else if s[|s| - 1] == c then |s| - 1
    else RFind(s[..|s| - 1], c)
  }

  /** `os.path.basename(p)`: everything after the last `/`. */
  function Basename(p: string): (r: string)
    ensures '/' !in r
    ensures |r| <= |p| && r == p[|p| - |r|..]
    ensures |r| < |p| ==> p[|p| - |r| - 1] == '/'
  {
    p[RFind(p, '/') + 1..]
  }

  predicate AllDots(s: string) {
    forall i :: 0 <= i < |s| ==> s[i] == '.'
  }

  /** `os.path.splitext(p)`: the extension starts at the last `.` after the
      last `/`, unless that final component holds only dots before it. */
  function SplitExt(p: string): (r: (string, string))
    ensures r.0 + r.1 == p
    ensures r.1 == [] || (r.1[0] == '.' && '.' !in r.1[1..] && '/' !in r.1)
  {
    var sep := RFind(p, '/');
    var dot := RFind(p, '.');
    if dot > sep && !AllDots(p[sep + 1..dot]) then
      var e := p[dot..];
      AfterLastDot(p, dot, sep);
      (p[..dot], e)
    else
      (p, [])
  }

  lemma AfterLastDot(p: string, dot: int, sep: int)
    requires sep == RFind(p, '/') && dot == RFind(p, '.') && dot > sep
    ensures p[..dot] + p[dot..] == p
    ensures p[dot..][0] == '.' && '.' !in p[dot..][1..] && '/' !in p[dot..]
  {
    var e := p[dot..];
    assert p[..dot] + e == p;
    forall k | 0 <= k < |e[1..]| ensures e[1..][k] != '.' {
      assert e[1..][k] == p[dot + 1 + k];
    }
    forall k | 0 <= k < |e| ensures e[k] != '/' {
      assert e[k] == p[dot + k];
    }
  }

  /** `os.path.splitext(p)[1]`. */
  function Extension(p: string): string {
    SplitExt(p).1
  }

  /** The extension is a property of the file name alone: it is empty unless
      the basename has a `.` after some other character, and then it is the
      basename's text from its last `.` on. */
  lemma ExtensionOfBasename(p: string)
    ensures var b := Basename(p); var e := Extension(p);
            && (e != [] <==> exists i, j :: 0 <= i < j < |b| && b[i] != '.' && b[j] == '.')
            && (e != [] ==> e == b[RFind(b, '.')..])
  {
    var b := Basename(p);
    var sep := RFind(p, '/');
    var dot := RFind(p, '.');
    var start := sep + 1;
    assert b == p[start..];
    var bd := RFind(b, '.');
    if dot > sep {
      assert b[dot - start] == '.';
      assert bd == dot - start;
      assert p[dot..] == b[bd..];
      assert p[start..dot] == b[..bd];
      if AllDots(p[start..dot]) {
        forall i, j | 0 <= i < j < |b| && b[j] == '.'
          ensures b[i] == '.'
        {
          assert j <= bd;
          assert b[i] == p[start..dot][i];
        }
      } else {
        var i :| 0 <= i < |p[start..dot]| && p[start..dot][i] != '.';
        assert b[i] != '.' && b[bd] == '.';
      }
    } else {
      forall j | 0 <= j < |b|
        ensures b[j] != '.'
      {
        assert b[j] == p[start + j];
      }
    }
  }

  /** `os.path.join(a, b)` for two components. */
  function JoinPath(a: string, b: string): (r: string)
    ensures |b| > 0 && b[0] == '/' ==> r == b
  {
    if |b| > 0 && b[0] == '/' then b
    else if a == [] || a[|a| - 1] == '/' then a + b
    else a + "/" + b
  }

  /** A file name joined onto a directory is the basename of the result. */
  lemma BasenameOfJoin(a: string, name: string)
    requires '/' !in name
    ensures Basename(JoinPath(a, name)) == name
  {
    var r := JoinPath(a, name);
    var start := |r| - |name|;
    assert r[start..] == name;
    assert forall j :: start <= j < |r| ==> r[j] == name[j - start];
    assert forall j :: start <= j < |r| ==> r[j] != '/';
    if a == [] {
      assert start == 0;
    } else {
      assert r[start - 1] == '/';
    }
    assert RFind(r, '/') == start - 1;
  }
}
