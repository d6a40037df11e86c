/** Paths as the kernel walks them, name by name, in a tree without symbolic links. */
module Paths {

  /** Where a file is: the names from the root down to it. */
  type Place = seq<string>

  /** A path as a process uses it: its text and the directory the process works in. */
  datatype Path = Path(cwd: Place, text: string)

  predicate IsName(s: string) {
    s != "" && s != "." && s != ".."
  }

  /** One component: nothing for "" and ".", one up for "..", one down for a name. */
  function Enter(dir: Place, name: string): Place {
    if IsName(name) then dir + [name]
    else if name == ".." && dir != [] then dir[..|dir| - 1]
    else dir
  }

  /** A walk under way: the directory reached and the part of the next component already read. */
  datatype Walk = Walk(dir: Place, name: string)

  function Scan(w: Walk, s: string): Walk {
    if s == "" then w
    else var v, c := Scan(w, s[..|s| - 1]), s[|s| - 1];
         if c == '/' then Walk(Enter(v.dir, v.name), "") else Walk(v.dir, v.name + [c])
  }

  function Start(p: Path): Walk {
    Walk(if p.text != "" && p.text[0] == '/' then [] else p.cwd, "")
  }

  function Walked(p: Path): Walk {
    Scan(Start(p), p.text)
  }

  function At(p: Path): Place {
    Enter(Walked(p).dir, Walked(p).name)
  }

  /** The path ends in a name.  One that ends in "/", "." or ".." can only be a directory, onto
      which no file can be renamed. */
  predicate EndsInName(p: Path) {
    IsName(Walked(p).name)
  }

  function Tmp(p: Path): Path {
    Path(p.cwd, p.text + ".tmp")
  }

  predicate IsTmp(at: Place) {
    at != [] && var name := at[|at| - 1]; |name| >= 4 && name[|name| - 4..] == ".tmp"
  }

  function Parent(at: Place): Place {
    if at == [] then [] else at[..|at| - 1]
  }

  /** `build_path`. */
  function Join(cwd: Place, dir: string, file: string): Path {
    Path(cwd, dir + "/" + file)
  }

  /** The directory that `dir` denotes in front of "/...". */
  function Base(cwd: Place, dir: string): Place {
    Walked(Path(cwd, dir + "/")).dir
  }

  lemma {:induction false} ScanConcat(w: Walk, a: string, b: string)
    ensures Scan(w, a + b) == Scan(Scan(w, a), b)
    decreases |b|
  {
    if b == "" {
      assert a + b == a;
    } else {
      var n := |b| - 1;
      assert (a + b)[..|a + b| - 1] == a + b[..n];
      ScanConcat(w, a, b[..n]);
    }
  }

  lemma {:induction false} ScanName(w: Walk, s: string)
    requires forall i :: 0 <= i < |s| ==> s[i] != '/'
    ensures Scan(w, s) == Walk(w.dir, w.name + s)
  {
    if s != "" {
      ScanName(w, s[..|s| - 1]);
      assert w.name + s == w.name + s[..|s| - 1] + [s[|s| - 1]];
    } else {
      assert w.name + s == w.name;
    }
  }

  /** The temporary file lies beside where the path leads, under the name with ".tmp" added. */
  lemma TmpAt(p: Path)
    ensures At(Tmp(p)) == Walked(p).dir + [Walked(p).name + ".tmp"]
    ensures IsTmp(At(Tmp(p))) && At(Tmp(p)) != At(p) && EndsInName(Tmp(p))
  {
    hide Scan;
    var w := Walked(p);
    ScanConcat(Start(p), p.text, ".tmp");
    ScanName(w, ".tmp");
    TmpStart(p);
    var name := w.name + ".tmp";
    assert |name| >= 4 && name[|name| - 4..] == ".tmp";
  }

  lemma TmpStart(p: Path)
    ensures Start(Tmp(p)) == Start(p)
  {
    assert p.text == "" ==> p.text + ".tmp" == ".tmp";
  }

  /** What follows a directory is walked from there. */
  lemma JoinWalk(cwd: Place, dir: string, file: string)
    ensures Walked(Join(cwd, dir, file)) == Scan(Walk(Base(cwd, dir), ""), file)
  {
    var front := Path(cwd, dir + "/");
    ScanConcat(Start(front), dir + "/", file);
    assert Walked(front) == Walk(Base(cwd, dir), "");
    assert Start(Join(cwd, dir, file)) == Start(front);
  }

  lemma JoinAt(cwd: Place, dir: string, file: string)
    requires IsName(file) && forall i :: 0 <= i < |file| ==> file[i] != '/'
    ensures At(Join(cwd, dir, file)) == Base(cwd, dir) + [file] && EndsInName(Join(cwd, dir, file))
    ensures At(Tmp(Join(cwd, dir, file))) == Base(cwd, dir) + [file + ".tmp"]
  {
    hide Scan, Base;
    JoinWalk(cwd, dir, file);
    ScanName(Walk(Base(cwd, dir), ""), file);
    assert "" + file == file;
    TmpAt(Join(cwd, dir, file));
  }

  /** A path from the root does not depend on the working directory, one without a slash lies in it. */
  lemma AbsoluteOrNot(cwd: Place, other: Place, s: string, name: string)
    requires IsName(name) && forall i :: 0 <= i < |name| ==> name[i] != '/'
    ensures At(Path(cwd, "/" + s)) == At(Path(other, "/" + s)) && At(Path(cwd, "/" + name)) == [name]
    ensures At(Path(cwd, name)) == cwd + [name]
  {
    ScanName(Walk(cwd, ""), name);
    ScanConcat(Walk([], ""), "/", name);
    assert "/"[..0] == "";
    assert Scan(Walk([], ""), "/") == Walk([], "");
    ScanName(Walk([], ""), name);
    assert "" + name == name;
  }

  /** Doubled slashes and "." do nothing; ".." goes up, at most to the root. */
  lemma Dots(cwd: Place, dir: string, name: string)
    requires dir != "" && IsName(name) && forall i :: 0 <= i < |name| ==> name[i] != '/'
    ensures At(Path(cwd, dir + "/" + "")) == At(Path(cwd, dir)) && At(Path(cwd, dir + "/" + ".")) == At(Path(cwd, dir))
    ensures At(Path(cwd, dir + "/" + "..")) == Parent(At(Path(cwd, dir)))
    ensures At(Path(cwd, dir + "/" + name)) == At(Path(cwd, dir)) + [name]
  {
    hide Scan;
    var w := Start(Path(cwd, dir));
    ScanStep(w, dir, "");
    ScanStep(w, dir, ".");
    ScanStep(w, dir, "..");
    ScanStep(w, dir, name);
  }

  /** A directory and then a component: one more step. */
  lemma ScanStep(w: Walk, dir: string, name: string)
    requires forall i :: 0 <= i < |name| ==> name[i] != '/'
    ensures Scan(w, dir + "/" + name) == Walk(Enter(Scan(w, dir).dir, Scan(w, dir).name), name)
  {
    assert (dir + "/")[..|dir + "/"| - 1] == dir;
    ScanConcat(w, dir + "/", name);
    ScanName(Scan(w, dir + "/"), name);
    assert "" + name == name;
  }

  /** Index of the last '/', or -1. */
  function LastSlash(s: string, n: nat): (k: int)
    requires n <= |s|
    ensures -1 <= k < n && (k >= 0 ==> s[k] == '/') && forall i :: k < i < n ==> s[i] != '/'
  {
    if n == 0 then -1 else if s[n - 1] == '/' then n - 1 else LastSlash(s, n - 1)
  }

  /** The path names its directory, and it is not the root. */
  predicate Named(p: Path) {
    LastSlash(p.text, |p.text|) > 0
  }

  /** The path of the directory it names. */
  function DirOf(p: Path): Path
    requires Named(p)
  {
    Path(p.cwd, p.text[..LastSlash(p.text, |p.text|)])
  }

  /** The directory that a path names is the one its file is in. */
  lemma DirOfAt(p: Path)
    requires Named(p) && EndsInName(p)
    ensures At(p) != [] && Parent(At(p)) == At(DirOf(p))
  {
    hide LastSlash;
    var k, d := LastSlash(p.text, |p.text|), DirOf(p);
    var file := p.text[k + 1..];
    assert d.text + "/" + file == p.text;
    JoinWalk(p.cwd, d.text, file);
    ScanName(Walk(Base(p.cwd, d.text), ""), file);
    assert Base(p.cwd, d.text) == At(d) by {
      assert (d.text + "/")[..k] == d.text;
    }
  }
}
