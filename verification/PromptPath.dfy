/** The two validators of a configured prompt path, the Hub's and the worker's, and
    where an accepted path leads on POSIX. */
module PromptPath {
  import opened Sequences

  /** The configured value of a prompt field. */
  datatype Setting = Missing | NotText | Text(value: string)
  datatype Outcome<+T> = Accepted(value: T) | Refused

  predicate IsSeparator(c: char) {
    c == '/' || c == '\\'
  }

  predicate IsLetter(c: char) {
    'A' <= c <= 'Z' || 'a' <= c <= 'z'
  }

  /** The component that starts at `i`, between separators of either kind, is `..`. */
  predicate ParentAt(p: string, i: int) {
    && 0 <= i && i + 2 <= |p| && p[i] == '.' && p[i + 1] == '.'
    && (i == 0 || IsSeparator(p[i - 1])) && (i + 2 == |p| || IsSeparator(p[i + 2]))
  }

  // ---- The Hub -----------------------------------------------------------

  /** The first separator at or after `start`, or the end. */
  function Separator(p: string, start: nat): (end: nat)
    requires start <= |p|
    ensures start <= end <= |p| && (end < |p| ==> IsSeparator(p[end]))
    ensures forall i :: start <= i < end ==> !IsSeparator(p[i])
    decreases |p| - start
  {
    if start == |p| || IsSeparator(p[start]) then start else Separator(p, start + 1)
  }

  function AfterRun(p: string, start: nat): (end: nat)
    requires start <= |p|
    ensures start <= end <= |p| && (end < |p| ==> !IsSeparator(p[end]))
    ensures forall i :: start <= i < end ==> IsSeparator(p[i])
    decreases |p| - start
  {
    if start == |p| || !IsSeparator(p[start]) then start else AfterRun(p, start + 1)
  }

  /** `path.split(/[\\/]+/)`: the pieces between runs of separators. */
  function Pieces(p: string, start: nat): seq<string>
    requires start <= |p|
    decreases |p| - start
  {
    var end := Separator(p, start);
    if end == |p| then [p[start..]] else [p[start..end]] + Pieces(p, AfterRun(p, end))
  }

  predicate HubRooted(p: string) {
    |p| >= 1 && (p[0] == '/' || p[0] == '\\' || (|p| >= 2 && IsLetter(p[0]) && p[1] == ':'))
  }

  /** `checkPromptFile`: a value that is no text counts as the empty one. */
  function CheckPromptFile(value: Setting): Outcome<string> {
    var path := if value.Text? then value.value else "";
    if path == "" || '\0' in path || HubRooted(path) || ".." in Pieces(path, 0) then Refused else Accepted(path)
  }

  lemma {:induction false} ComponentIsParent(p: string, start: nat)
    requires start <= |p| && (start == 0 || IsSeparator(p[start - 1]))
    ensures p[start..Separator(p, start)] == ".." <==> ParentAt(p, start)
  {
    var end := Separator(p, start);
    if p[start..end] == ".." {
      assert p[start..end][0] == p[start] && p[start..end][1] == p[start + 1];
    }
    if ParentAt(p, start) {
      assert end == start + 2;
    }
  }

  /** The regular expression finds a parent component exactly where there is one. */
  lemma {:induction false} PiecesFindParents(p: string, start: nat)
    requires start <= |p| && (start == 0 || IsSeparator(p[start - 1]))
    ensures ".." in Pieces(p, start) <==> exists i :: start <= i && ParentAt(p, i)
    decreases |p| - start
  {
    var end := Separator(p, start);
    ComponentIsParent(p, start);
    if end == |p| {
      assert p[start..] == p[start..end];
    } else {
      var next := AfterRun(p, end);
      assert next > end;
      PiecesFindParents(p, next);
      assert ".." in Pieces(p, start) <==> p[start..end] == ".." || ".." in Pieces(p, next);
    }
    assert ".." in Pieces(p, start) ==> exists i :: start <= i && ParentAt(p, i);
  }

  // ---- The worker --------------------------------------------------------

  /** `rooted` */
  predicate Rooted(value: string) {
    if value == "" then false
    else if value[0] == '/' || value[0] == '\\' then true
    else |value| >= 2 && value[1] == ':' && IsLetter(value[0])
  }

  /** `has_parent_traversal` */
  method HasParentTraversal(value: string) returns (r: bool)
    ensures r <==> exists i :: ParentAt(value, i)
  {
    var start := 0;
    while start <= |value|
      invariant start <= |value| && (start == 0 || IsSeparator(value[start - 1]))
      invariant forall i :: 0 <= i < start ==> !ParentAt(value, i)
      decreases |value| - start
    {
      var end := Separator(value, start);
      ComponentIsParent(value, start);
      if value[start..end] == ".." { return true; }
      if end == |value| { return false; }
      start := end + 1;
    }
    return false;
  }

  // ---- Lexical paths on POSIX --------------------------------------------

  /** A path in normal form: whether it begins at the root, and its names. */
  datatype Lexical = Lexical(absolute: bool, names: seq<string>)

  /** The components between slashes, possibly empty. */
  function Components(p: string): (r: seq<string>)
    ensures r != []
    decreases |p|
  {
    if p == "" then [""]
    else
      var before, last := Components(p[..|p| - 1]), p[|p| - 1];
      if last == '/' then before + [""] else Lengthened(before, last)
  }

  /** The last component grows by a character. */
  function Lengthened(components: seq<string>, c: char): (r: seq<string>)
    requires components != []
    ensures |r| == |components|
  {
    components[..|components| - 1] + [components[|components| - 1] + [c]]
  }

  /** Empty components and `.` name nothing. */
  function Named(components: seq<string>): seq<string> {
    if components == [] then []
    else
      var last := components[|components| - 1];
      var before := Named(components[..|components| - 1]);
      if last == "" || last == "." then before else before + [last]
  }

  /** `..` removes the name before it, and nothing above the root. */
  function Reduced(absolute: bool, names: seq<string>): seq<string> {
    if names == [] then []
    else
      var last := names[|names| - 1];
      var before := Reduced(absolute, names[..|names| - 1]);
      if last != ".." then before + [last]
      else if before == [] then (if absolute then [] else [last])
      else if before[|before| - 1] == ".." then before + [last]
      else before[..|before| - 1]
  }

  /** `path::lexically_normal` */
  function Normal(p: string): Lexical {
    var absolute := p != "" && p[0] == '/';
    Lexical(absolute, Reduced(absolute, Named(Components(p))))
  }

  /** `operator/` with a path that has no root. */
  function Join(directory: string, p: string): string {
    if directory == "" || directory[|directory| - 1] == '/' then directory + p else directory + "/" + p
  }

  /** A normal form has no empty or `.` name, and `..` only at the front of a relative path. */
  predicate IsNormal(l: Lexical) {
    && (forall i :: 0 <= i < |l.names| ==> l.names[i] != "" && l.names[i] != ".")
    && (forall i :: 0 <= i < |l.names| && l.names[i] == ".." ==> !l.absolute && forall j :: 0 <= j < i ==> l.names[j] == "..")
  }

  lemma {:induction false} NamedHasNames(components: seq<string>)
    ensures forall i :: 0 <= i < |Named(components)| ==> Named(components)[i] != "" && Named(components)[i] != "."
    ensures forall i :: 0 <= i < |Named(components)| ==> Named(components)[i] in components
    decreases |components|
  {
    if components != [] { NamedHasNames(components[..|components| - 1]); }
  }

  lemma {:induction false} ReducedIsNormal(absolute: bool, names: seq<string>)
    requires forall i :: 0 <= i < |names| ==> names[i] != "" && names[i] != "."
    ensures IsNormal(Lexical(absolute, Reduced(absolute, names)))
    decreases |names|
  {
    if names != [] { ReducedIsNormal(absolute, names[..|names| - 1]); }
  }

  lemma {:induction false} NormalIsNormal(p: string)
    ensures IsNormal(Normal(p))
  {
    NamedHasNames(Components(p));
    ReducedIsNormal(p != "" && p[0] == '/', Named(Components(p)));
  }

  lemma {:induction false} ComponentsGrow(p: string, c: char)
    ensures Components(p + [c]) == if c == '/' then Components(p) + [""] else Lengthened(Components(p), c)
  {
    assert (p + [c])[..|p + [c]| - 1] == p;
  }

  lemma {:induction false} LengthenedConcat(a: seq<string>, b: seq<string>, c: char)
    requires b != []
    ensures Lengthened(a + b, c) == a + Lengthened(b, c)
  {
    assert (a + b)[..|a + b| - 1] == a + b[..|b| - 1];
  }

  lemma {:induction false} ComponentsOfJoin(directory: string, p: string)
    ensures Components(directory + "/" + p) == Components(directory) + Components(p)
    decreases |p|
  {
    hide Components, Lengthened;
    var prefix := directory + "/";
    if p == "" {
      ComponentsGrow(directory, '/');
      assert prefix + p == prefix;
      assert Components("") == [""] by { EmptyComponents(); }
    } else {
      var shorter, last := p[..|p| - 1], p[|p| - 1];
      ComponentsOfJoin(directory, shorter);
      ComponentsGrow(prefix + shorter, last);
      ComponentsGrow(shorter, last);
      LengthenedConcat(Components(directory), Components(shorter), last);
      Associates(Components(directory), Components(shorter), [""]);
      assert shorter + [last] == p;
      assert prefix + shorter + [last] == prefix + p;
    }
  }

  lemma {:induction false} EmptyComponents()
    ensures Components("") == [""]
  {
  }

  lemma {:induction false} NamedConcat(a: seq<string>, b: seq<string>)
    ensures Named(a + b) == Named(a) + Named(b)
    decreases |b|
  {
    if b == [] {
      assert a + b == a;
    } else {
      assert (a + b)[..|a + b| - 1] == a + b[..|b| - 1];
      NamedConcat(a, b[..|b| - 1]);
    }
  }

  lemma {:induction false} NamesOfJoin(directory: string, p: string)
    ensures Named(Components(Join(directory, p))) == Named(Components(directory)) + Named(Components(p))
  {
    if directory == "" {
      assert directory + p == p;
      assert Named(Components("")) == [];
    } else if directory[|directory| - 1] == '/' {
      var shorter := directory[..|directory| - 1];
      assert directory == shorter + "/";
      assert Join(directory, p) == shorter + "/" + p;
      ComponentsOfJoin(shorter, p);
      NamedConcat(Components(shorter), Components(p));
      NamedConcat(Components(shorter), [""]);
      assert Named([""]) == [];
    } else {
      ComponentsOfJoin(directory, p);
      NamedConcat(Components(directory), Components(p));
    }
  }

  /** Without `..` there is nothing to take away. */
  lemma {:induction false} ReducedKeeps(absolute: bool, a: seq<string>, b: seq<string>)
    requires ".." !in b
    ensures Reduced(absolute, a + b) == Reduced(absolute, a) + b
    decreases |b|
  {
    if b == [] {
      assert a + b == a;
    } else {
      assert (a + b)[..|a + b| - 1] == a + b[..|b| - 1];
      ReducedKeeps(absolute, a, b[..|b| - 1]);
    }
  }

  ghost predicate ComponentAt(p: string, c: string, i: int) {
    && 0 <= i && i + |c| <= |p| && p[i..i + |c|] == c
    && (i == 0 || p[i - 1] == '/') && (i + |c| == |p| || p[i + |c|] == '/')
  }

  /** The last component grows with the path; the others stay where they are. */
  lemma {:induction false} PlaceStays(p: string, c: string, i: int, more: char)
    requires ComponentAt(p, c, i)
    ensures more == '/' || i + |c| < |p| ==> ComponentAt(p + [more], c, i)
    ensures i + |c| == |p| ==> ComponentAt(p + [more], c + [more], i) || more == '/'
  {
    var q := p + [more];
    assert q[i..i + |c|] == p[i..i + |c|];
    if i + |c| == |p| { assert q[i..i + |c| + 1] == c + [more]; }
  }

  lemma {:induction false} ComponentsArePlaced(p: string, k: nat) returns (i: int)
    requires k < |Components(p)|
    ensures ComponentAt(p, Components(p)[k], i)
    ensures k == |Components(p)| - 1 <==> i + |Components(p)[k]| == |p|
    decreases |p|
  {
    if p == "" {
      return 0;
    }
    hide ComponentAt;
    var shorter, last := p[..|p| - 1], p[|p| - 1];
    var before := Components(shorter);
    assert p == shorter + [last];
    if k == |before| {
      i := |p|;
      EmptyAtEnd(p);
    } else {
      i := ComponentsArePlaced(shorter, k);
      PlaceStays(shorter, before[k], i, last);
      PlaceFits(shorter, before[k], i);
    }
  }

  lemma {:induction false} EmptyAtEnd(p: string)
    requires p != "" && p[|p| - 1] == '/'
    ensures ComponentAt(p, "", |p|)
  {
  }

  lemma {:induction false} PlaceFits(p: string, c: string, i: int)
    requires ComponentAt(p, c, i)
    ensures i + |c| <= |p|
  {
  }

  /** Parent components of the file system are among those the validators look for. */
  lemma {:induction false} ParentComponentsAreSeen(p: string)
    requires ".." in Components(p)
    ensures exists i :: ParentAt(p, i)
  {
    var k :| 0 <= k < |Components(p)| && Components(p)[k] == "..";
    var i := ComponentsArePlaced(p, k);
    assert p[i] == p[i..i + 2][0] && p[i + 1] == p[i..i + 2][1];
    assert ParentAt(p, i);
  }

  // ---- The two validators together ---------------------------------------

  /** What both sides are meant to accept. */
  ghost predicate Acceptable(value: Setting) {
    && value.Text? && value.value != "" && '\0' !in value.value && !Rooted(value.value)
    && !exists i :: ParentAt(value.value, i)
  }

  /** `installed_file`: the installed fallback when the key is missing. */
  method InstalledFile(value: Setting, installation: string, fallback: string) returns (r: Outcome<Lexical>)
    ensures r.Accepted? <==> value.Missing? || Acceptable(value)
    ensures value.Missing? ==> r == Accepted(Normal(Join(installation, fallback)))
    ensures value.Text? && r.Accepted? ==> r.value == Normal(Join(installation, value.value))
  {
    if value.Missing? { return Accepted(Normal(Join(installation, fallback))); }
    if value.NotText? { return Refused; }
    var path := value.value;
    if path == "" || '\0' in path || Rooted(path) || path[0] == '/' { return Refused; }
    var parent := HasParentTraversal(path);
    if parent { return Refused; }
    return Accepted(Normal(Join(installation, path)));
  }

  /** The Hub's use of the check: a field that is not there is left to the worker. */
  predicate HubPasses(value: Setting) {
    value.Missing? || CheckPromptFile(value).Accepted?
  }

  /** The Hub passes exactly the settings the worker accepts, a missing one included, and a
      text it passes it passes on unchanged. */
  lemma {:induction false} HubAgrees(value: Setting)
    ensures HubPasses(value) <==> value.Missing? || Acceptable(value)
    ensures value.Text? && HubPasses(value) ==> CheckPromptFile(value) == Accepted(value.value)
  {
    if value.Text? {
      PiecesFindParents(value.value, 0);
      assert (exists i :: 0 <= i && ParentAt(value.value, i)) <==> exists i :: ParentAt(value.value, i);
    }
  }

  /** An accepted path names a place at or below the installation directory: the
      directory's own names, then the path's. */
  lemma {:induction false} AcceptedStaysBelow(value: Setting, installation: string)
    requires Acceptable(value)
    ensures var at := Normal(Join(installation, value.value));
            && at.absolute == Normal(installation).absolute
            && at.names == Normal(installation).names + Named(Components(value.value))
            && IsNormal(at)
  {
    var path := value.value;
    var directory := installation;
    var names := Named(Components(path));
    NamesOfJoin(directory, path);
    NormalIsNormal(Join(directory, path));
    if ".." in names {
      NamedHasNames(Components(path));
      ParentComponentsAreSeen(path);
      assert false;
    }
    ReducedKeeps(directory != "" && directory[0] == '/', Named(Components(directory)), names);
    assert Join(directory, path)[0] == if directory == "" then path[0] else directory[0];
  }
}
