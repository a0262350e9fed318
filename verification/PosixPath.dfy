/** The POSIX half of path.js: a right-to-left pass in place, against walking the path from the left. */
module PosixPath {
  import opened Text

  // ---------- walking a path ----------

  /** Where a relative path leads: so many levels up, and then down through these names. */
  datatype Walk = Walk(ups: nat, names: seq<string>)

  function Dot(): string {
    "."
  }

  function Up(): string {
    ".."
  }

  predicate IsDot(part: string) {
    part == Dot()
  }

  predicate IsUp(part: string) {
    part == Up()
  }

  function Step(w: Walk, part: string): Walk {
    if IsDot(part) then w
    else if IsUp(part) then
      if w.names != [] then Walk(w.ups, w.names[..|w.names| - 1]) else Walk(w.ups + 1, [])
    else Walk(w.ups, w.names + [part])
  }

  /** The left-to-right evaluation of '.' and '..' on a stack of names. */
  function Walked(parts: seq<string>): Walk {
    if parts == [] then Walk(0, []) else Step(Walked(parts[..|parts| - 1]), parts[|parts| - 1])
  }

  function Dots(n: nat): (d: seq<string>)
    ensures |d| == n && forall k :: 0 <= k < n ==> d[k] == Up()
  {
    if n == 0 then [] else [Up()] + Dots(n - 1)
  }

  function Stack(parts: seq<string>, allowAboveRoot: bool): seq<string> {
    var w := Walked(parts);
    (if allowAboveRoot then Dots(w.ups) else []) + w.names
  }

  predicate Plain(part: string) {
    !IsDot(part) && !IsUp(part)
  }

  predicate AllPlain(names: seq<string>) {
    forall k :: 0 <= k < |names| ==> Plain(names[k])
  }

  /** '..' is left only as a leading run, and none at all when above the root is not allowed; no '.' is left. */
  lemma {:induction false} DotsLead(parts: seq<string>)
    ensures AllPlain(Walked(parts).names)
  {
    if parts != [] {
      DotsLead(parts[..|parts| - 1]);
    }
  }

  // ---------- one walk after another ----------

  function Then(v: Walk, w: Walk): Walk {
    if w.ups <= |v.names| then Walk(v.ups, v.names[..|v.names| - w.ups] + w.names)
    else Walk(v.ups + w.ups - |v.names|, w.names)
  }

  lemma ThenStep(v: Walk, w: Walk, part: string)
    ensures Then(v, Step(w, part)) == Step(Then(v, w), part)
  {
    if Plain(part) && w.ups <= |v.names| {
      assert v.names[..|v.names| - w.ups] + (w.names + [part]) == v.names[..|v.names| - w.ups] + w.names + [part];
    } else if IsUp(part) && w.names != [] && w.ups <= |v.names| {
      var front := v.names[..|v.names| - w.ups];
      assert (front + w.names)[..|front + w.names| - 1] == front + w.names[..|w.names| - 1];
    } else if IsUp(part) && w.names == [] && w.ups < |v.names| {
      assert v.names[..|v.names| - w.ups] + [] == v.names[..|v.names| - w.ups];
      assert v.names[..|v.names| - w.ups - 1] + [] == v.names[..|v.names| - w.ups - 1];
    } else if IsUp(part) && w.names == [] && w.ups == |v.names| {
      assert v.names[..0] + [] == [];
    }
  }

  lemma {:induction false} WalkedAppend(a: seq<string>, b: seq<string>)
    ensures Walked(a + b) == Then(Walked(a), Walked(b))
  {
    if b == [] {
      assert a + b == a;
      var v := Walked(a);
      assert v.names[..|v.names|] + [] == v.names;
    } else {
      var front, last := b[..|b| - 1], b[|b| - 1];
      WalkedAppend(a, front);
      assert (a + b)[..|a + b| - 1] == a + front;
      ThenStep(Walked(a), Walked(front), last);
    }
  }

  lemma WalkedOne(part: string)
    ensures Walked([part]) == Step(Walk(0, []), part)
  {
    assert [part][..0] == [];
  }

  lemma {:induction false} WalkedDots(n: nat)
    ensures Walked(Dots(n)) == Walk(n, [])
  {
    if n > 0 {
      WalkedDots(n - 1);
      WalkedOne(Up());
      WalkedAppend([Up()], Dots(n - 1));
    }
  }

  lemma StepPlain(w: Walk, part: string)
    requires Plain(part)
    ensures Step(w, part) == Walk(w.ups, w.names + [part])
  {
  }

  lemma {:induction false} WalkedPlain(names: seq<string>)
    requires AllPlain(names)
    ensures Walked(names) == Walk(0, names)
  {
    hide IsDot, IsUp, Step;
    if names != [] {
      var front, last := names[..|names| - 1], names[|names| - 1];
      WalkedPlain(front);
      StepPlain(Walk(0, front), last);
      assert front + [last] == names;
    }
  }

  /** A normalized path leads where the path leads. */
  lemma WalkedStack(parts: seq<string>)
    ensures Walked(Stack(parts, true)) == Walked(parts)
    ensures Walked(Stack(parts, false)) == Walk(0, Walked(parts).names)
  {
    var w := Walked(parts);
    DotsLead(parts);
    WalkedPlain(w.names);
    WalkedDots(w.ups);
    WalkedAppend(Dots(w.ups), w.names);
    assert [] + w.names == w.names;
  }

  /** Normalizing once is normalizing. */
  lemma StackTwice(parts: seq<string>, allowAboveRoot: bool)
    ensures Stack(Stack(parts, allowAboveRoot), allowAboveRoot) == Stack(parts, allowAboveRoot)
  {
    WalkedStack(parts);
  }

  // ---------- the pass of the source ----------

  /** One part, seen from the right with so many '..' to settle. */
  lemma ThenOne(v: Walk, part: string, w: Walk)
    ensures Then(Step(v, part), w)
         == Then(v, if IsDot(part) then w
                    else if IsUp(part) then Walk(w.ups + 1, w.names)
                    else if w.ups > 0 then Walk(w.ups - 1, w.names)
                    else Walk(0, [part] + w.names))
  {
    if Plain(part) {
      var names := v.names + [part];
      if w.ups > 0 {
        if w.ups <= |names| {
          assert names[..|names| - w.ups] == v.names[..|names| - w.ups];
        }
      } else {
        assert names[..|names|] + w.names == v.names[..|v.names|] + ([part] + w.names);
      }
    }
  }

  /** parts.splice(i, 1) */
  function Spliced(parts: seq<string>, i: nat): (r: seq<string>)
    requires i < |parts|
    ensures |r| == |parts| - 1 && r[..i] == parts[..i] && r[i..] == parts[i + 1..]
  {
    parts[..i] + parts[i + 1..]
  }

  /** The pass so far: what is kept from i on, and the '..' counted, stand for the parts from i on. */
  ghost predicate Passed(parts0: seq<string>, parts: seq<string>, i: int, up: nat) {
    && 0 <= i <= |parts| && i <= |parts0| && parts[..i] == parts0[..i]
    && Walked(parts0) == Then(Walked(parts0[..i]), Walk(up, parts[i..]))
  }

  lemma PassedStep(parts0: seq<string>, parts: seq<string>, i: nat, up: nat)
    requires Passed(parts0, parts, i + 1, up)
    ensures var last := parts[i];
      if IsDot(last) then Passed(parts0, Spliced(parts, i), i, up)
      else if IsUp(last) then Passed(parts0, Spliced(parts, i), i, up + 1)
      else if up > 0 then Passed(parts0, Spliced(parts, i), i, up - 1)
      else Passed(parts0, parts, i, 0)
  {
    var last, kept := parts[i], parts[i + 1..];
    Unfold(parts0, i);
    assert last == parts[..i + 1][i] == parts0[..i + 1][i];
    hide IsDot, IsUp, Walked, Then, Step;
    ThenOne(Walked(parts0[..i]), last, Walk(up, kept));
    assert parts[..i + 1][..i] == parts[..i] && parts0[..i + 1][..i] == parts0[..i];
    assert [last] + kept == parts[i..];
  }

  /** Works from the last part to the first, counting the '..' that names before them will settle. */
  method NormalizeArray(parts0: seq<string>, allowAboveRoot: bool) returns (parts: seq<string>)
    ensures parts == Stack(parts0, allowAboveRoot)
  {
    parts := parts0;
    var up: nat := 0;
    Start(parts0);
    hide Passed, IsDot, IsUp, Spliced, Dots, Walked;
    var i := |parts| - 1;
    while i >= 0
      invariant -1 <= i < |parts| && Passed(parts0, parts, i + 1, up)
    {
      var last := parts[i];
      PassedStep(parts0, parts, i, up);
      if IsDot(last) {
        parts := Spliced(parts, i);
      } else if IsUp(last) {
        parts := Spliced(parts, i);
        up := up + 1;
      } else if up > 0 {
        parts := Spliced(parts, i);
        up := up - 1;
      }
      i := i - 1;
    }
    Finish(parts0, parts, up);
    if allowAboveRoot {
      parts := Unshift(parts, up);
    } else {
      Prefixed(parts);
    }
  }

  lemma Prefixed(parts: seq<string>)
    ensures [] + parts == parts
  {
  }

  /** Restores the leading '..'. */
  method Unshift(parts0: seq<string>, up0: nat) returns (parts: seq<string>)
    ensures parts == Dots(up0) + parts0
  {
    hide Up;
    parts := parts0;
    var up := up0;
    while up > 0
      invariant Dots(up) + parts == Dots(up0) + parts0
    {
      DotsSnoc(up - 1);
      assert Dots(up - 1) + ([Up()] + parts) == Dots(up) + parts;
      parts := [Up()] + parts;
      up := up - 1;
    }
    Prefixed(parts);
  }

  lemma Start(parts: seq<string>)
    ensures Passed(parts, parts, |parts|, 0)
  {
    assert parts[..|parts|] == parts && parts[|parts|..] == [];
    var v := Walked(parts);
    hide Walked;
    assert v.names[..|v.names|] + [] == v.names;
  }

  lemma Unfold(parts: seq<string>, i: nat)
    requires i < |parts|
    ensures Walked(parts[..i + 1]) == Step(Walked(parts[..i]), parts[i])
  {
    assert parts[..i + 1][..i] == parts[..i];
  }

  lemma Finish(parts0: seq<string>, parts: seq<string>, up: nat)
    requires Passed(parts0, parts, 0, up)
    ensures Walked(parts0) == Walk(up, parts)
  {
    assert parts0[..0] == [] && parts[0..] == parts;
    assert Walked([]) == Walk(0, []);
    hide Walked;
    Prefixed(parts);
  }

  lemma {:induction false} DotsSnoc(n: nat)
    ensures Dots(n + 1) == Dots(n) + [Up()]
  {
    if n > 0 {
      DotsSnoc(n - 1);
    }
  }

  // ---------- paths as strings ----------

  function NonEmpty(parts: seq<string>): seq<string> {
    if parts == [] then []
    else if |parts[0]| > 0 then [parts[0]] + NonEmpty(parts[1..])
    else NonEmpty(parts[1..])
  }

  /** Array.prototype.join by a slash. */
  function Join(parts: seq<string>): string {
    if parts == [] then "" else if |parts| == 1 then parts[0] else parts[0] + "/" + Join(parts[1..])
  }

  function Parts(path: string): seq<string> {
    NonEmpty(Split(path, '/'))
  }

  predicate Name(part: string) {
    part != "" && '/' !in part
  }

  predicate AllNames(parts: seq<string>) {
    forall k :: 0 <= k < |parts| ==> Name(parts[k])
  }

  lemma {:induction false} NonEmptyNames(parts: seq<string>)
    requires forall k :: 0 <= k < |parts| ==> '/' !in parts[k]
    ensures AllNames(NonEmpty(parts))
  {
    if parts != [] {
      NonEmptyNames(parts[1..]);
    }
  }

  lemma PartsAreNames(path: string)
    ensures AllNames(Parts(path))
  {
    SplitHasNone(path, '/');
    NonEmptyNames(Split(path, '/'));
  }

  lemma NoneIsEmpty()
    ensures NonEmpty([]) == []
  {
  }

  lemma NonEmptyCons(part: string, rest: seq<string>)
    ensures NonEmpty([part] + rest) == (if |part| > 0 then [part] else []) + NonEmpty(rest)
  {
    assert ([part] + rest)[1..] == rest && [] + NonEmpty(rest) == NonEmpty(rest);
  }

  lemma {:induction false} NonEmptyConcat(a: seq<string>, b: seq<string>)
    ensures NonEmpty(a + b) == NonEmpty(a) + NonEmpty(b)
  {
    hide NonEmpty;
    if a == [] {
      NoneIsEmpty();
      assert a + b == b && [] + NonEmpty(b) == NonEmpty(b);
    } else {
      NonEmptyConcat(a[1..], b);
      NonEmptyCons(a[0], a[1..]);
      NonEmptyCons(a[0], a[1..] + b);
      assert [a[0]] + (a[1..] + b) == a + b && [a[0]] + a[1..] == a;
      var first := if |a[0]| > 0 then [a[0]] else [];
      assert first + (NonEmpty(a[1..]) + NonEmpty(b)) == first + NonEmpty(a[1..]) + NonEmpty(b);
    }
  }

  function Slashed(a: string, b: string): string {
    a + ['/'] + b
  }

  lemma PartsConcat(a: string, b: string)
    ensures Parts(Slashed(a, b)) == Parts(a) + Parts(b)
  {
    SplitConcat(a, '/', b);
    NonEmptyConcat(Split(a, '/'), Split(b, '/'));
  }

  lemma PartsOfName(name: string)
    requires Name(name)
    ensures Parts(name) == [name]
  {
    SplitNone(name, '/');
    assert NonEmpty([]) == [];
    assert [name][1..] == [];
  }

  /** Joined names split into these names. */
  lemma {:induction false} SplitJoin(names: seq<string>)
    requires AllNames(names) && names != []
    ensures Split(Join(names), '/') == names
  {
    assert Name(names[0]);
    SplitNone(names[0], '/');
    if |names| > 1 {
      SplitJoin(names[1..]);
      SplitConcat(names[0], '/', Join(names[1..]));
    }
  }

  lemma {:induction false} NonEmptyAll(names: seq<string>)
    requires AllNames(names)
    ensures NonEmpty(names) == names
  {
    if names != [] {
      assert Name(names[0]);
      NonEmptyAll(names[1..]);
    }
  }

  lemma PartsJoin(names: seq<string>)
    requires AllNames(names)
    ensures Parts(Join(names)) == names
  {
    if names == [] {
      assert Split("", '/') == [""];
      assert [""][1..] == [];
    } else {
      SplitJoin(names);
      NonEmptyAll(names);
    }
  }

  // ---------- directories ----------

  /** A directory is the names on the way to it from the root; '..' in the root leads to the root. */
  function Enter(dir: seq<string>, part: string): seq<string> {
    if IsDot(part) then dir
    else if IsUp(part) then if dir == [] then [] else dir[..|dir| - 1]
    else dir + [part]
  }

  function Lead(dir: seq<string>, parts: seq<string>): seq<string> {
    if parts == [] then dir else Enter(Lead(dir, parts[..|parts| - 1]), parts[|parts| - 1])
  }

  function Land(dir: seq<string>, w: Walk): seq<string> {
    if w.ups <= |dir| then dir[..|dir| - w.ups] + w.names else w.names
  }

  lemma LandStep(dir: seq<string>, w: Walk, part: string)
    ensures Land(dir, Step(w, part)) == Enter(Land(dir, w), part)
  {
    if w.ups <= |dir| {
      var front := dir[..|dir| - w.ups];
      if Plain(part) {
        assert front + (w.names + [part]) == front + w.names + [part];
      } else if IsUp(part) && w.names != [] {
        assert (front + w.names)[..|front + w.names| - 1] == front + w.names[..|w.names| - 1];
      } else if IsUp(part) {
        assert front + w.names == front;
        if w.ups < |dir| {
          assert dir[..|dir| - w.ups - 1] + [] == front[..|front| - 1];
        }
      }
    }
  }

  /** Where a path leads depends on its walk only. */
  lemma {:induction false} LeadIsLand(dir: seq<string>, parts: seq<string>)
    ensures Lead(dir, parts) == Land(dir, Walked(parts))
  {
    if parts == [] {
      assert dir[..|dir|] + [] == dir;
    } else {
      LeadIsLand(dir, parts[..|parts| - 1]);
      LandStep(dir, Walked(parts[..|parts| - 1]), parts[|parts| - 1]);
    }
  }

  predicate Absolute(path: string) {
    path != "" && path[0] == '/'
  }

  predicate Trailing(path: string) {
    path != "" && path[|path| - 1] == '/'
  }

  /** The directory a path names, from a directory. */
  function Cd(dir: seq<string>, path: string): seq<string> {
    Lead(if Absolute(path) then [] else dir, Parts(path))
  }

  // ---------- normalize ----------

  function Normalized(path: string): string {
    var isAbsolute := Absolute(path);
    var joined := Join(Stack(Parts(path), !isAbsolute));
    var body := if joined == "" && !isAbsolute then Dot() else joined;
    (if isAbsolute then "/" else "") + (if body != "" && Trailing(path) then body + "/" else body)
  }

  method Normalize(path0: string) returns (r: string)
    ensures r == Normalized(path0)
  {
    var isAbsolute, trailingSlash := Absolute(path0), Trailing(path0);
    var parts := NormalizeArray(Parts(path0), !isAbsolute);
    var path := Join(parts);
    if path == "" && !isAbsolute {
      path := Dot();
    }
    if path != "" && trailingSlash {
      path := path + "/";
    }
    r := (if isAbsolute then "/" else "") + path;
  }

  lemma DotIsName()
    ensures Name(Dot()) && Name(Up()) && IsDot(Dot()) && IsUp(Up()) && !IsDot(Up())
  {
  }

  lemma {:induction false} WalkedNames(parts: seq<string>)
    requires AllNames(parts)
    ensures AllNames(Walked(parts).names)
  {
    hide Name;
    if parts != [] {
      WalkedNames(parts[..|parts| - 1]);
    }
  }

  lemma StackNames(parts: seq<string>, allowAboveRoot: bool)
    requires AllNames(parts)
    ensures AllNames(Stack(parts, allowAboveRoot))
  {
    WalkedNames(parts);
    DotIsName();
    hide Name;
  }

  lemma JoinEnds(names: seq<string>)
    requires AllNames(names) && names != []
    ensures !Absolute(Join(names)) && !Trailing(Join(names)) && Join(names) != ""
    decreases names
  {
    assert Name(names[0]);
    if |names| > 1 {
      JoinEnds(names[1..]);
    }
  }

  /** Slashes before and after the body are only that. */
  lemma Dressed(body: string, isAbsolute: bool, trailing: bool)
    ensures Parts((if isAbsolute then "/" else "") + (if trailing then body + "/" else body)) == Parts(body)
  {
    assert Parts("") == [] by {
      PartsJoin([]);
    }
    var tail := if trailing then body + "/" else body;
    if trailing {
      PartsConcat(body, "");
      assert body + "/" + "" == body + "/";
      assert Parts(body) + [] == Parts(body);
    }
    if isAbsolute {
      PartsConcat("", tail);
      assert "" + "/" + tail == "/" + tail;
      assert [] + Parts(body) == Parts(body);
    } else {
      assert "" + tail == tail;
    }
  }

  /** The parts of a normalized path. */
  lemma NormalizedParts(path: string)
    ensures var stack := Stack(Parts(path), !Absolute(path));
      Parts(Normalized(path)) == (if stack == [] && !Absolute(path) then [Dot()] else stack)
  {
    var isAbsolute := Absolute(path);
    var stack := Stack(Parts(path), !isAbsolute);
    PartsAreNames(path);
    StackNames(Parts(path), !isAbsolute);
    PartsJoin(stack);
    DotIsName();
    PartsOfName(Dot());
    if stack != [] {
      JoinEnds(stack);
    }
    hide Stack, Parts, Join;
    var joined := Join(stack);
    var body := if joined == "" && !isAbsolute then Dot() else joined;
    Dressed(body, isAbsolute, body != "" && Trailing(path));
  }

  function Body(path: string): string {
    var joined := Join(Stack(Parts(path), !Absolute(path)));
    if joined == "" && !Absolute(path) then Dot() else joined
  }

  lemma BodyEnds(path: string)
    ensures var body := Body(path);
      if body == "" then Absolute(path) && Stack(Parts(path), false) == [] else !Absolute(body) && !Trailing(body)
  {
    var stack := Stack(Parts(path), !Absolute(path));
    PartsAreNames(path);
    StackNames(Parts(path), !Absolute(path));
    DotIsName();
    if stack != [] {
      JoinEnds(stack);
    } else {
      JoinEnds([Dot()]);
    }
  }

  /** A normalized path is absolute, and ends with a slash, as the path does; the root ends with the slash it is. */
  lemma NormalizedEnds(path: string)
    ensures Absolute(Normalized(path)) == Absolute(path)
    ensures Trailing(Normalized(path)) == (Body(path) == "" || Trailing(path))
  {
    BodyEnds(path);
    hide Stack, Parts, Join;
    var body := Body(path);
    assert Normalized(path) == (if Absolute(path) then "/" else "") + (if body != "" && Trailing(path) then body + "/" else body);
  }

  lemma StackDot()
    ensures Stack([Dot()], true) == [] && Stack([], true) == []
  {
    WalkedOne(Dot());
    DotIsName();
  }

  /** normalize is idempotent. */
  lemma NormalizeTwice(path: string)
    ensures Normalized(Normalized(path)) == Normalized(path)
  {
    NormalizedEnds(path);
    NormalizedParts(path);
    StackTwice(Parts(path), !Absolute(path));
    StackDot();
    BodyEnds(path);
    hide Stack, Parts;
    assert Body(Normalized(path)) == Body(path);
  }

  /** From every directory a normalized path leads where the path leads. */
  lemma NormalizeKeepsDirectory(dir: seq<string>, path: string)
    ensures Cd(dir, Normalized(path)) == Cd(dir, path)
  {
    var parts, isAbsolute := Parts(path), Absolute(path);
    var from := if isAbsolute then [] else dir;
    NormalizedParts(path);
    NormalizedEnds(path);
    WalkedStack(parts);
    LeadIsLand(from, parts);
    LeadIsLand(from, Stack(parts, !isAbsolute));
    WalkedOne(Dot());
    DotIsName();
    LeadIsLand(from, [Dot()]);
    hide Parts, Normalized;
    if !isAbsolute {
      assert Stack(parts, true) == [] ==> Walked(parts) == Walk(0, []) by {
        assert Walked([]) == Walk(0, []);
      }
    }
  }

  // ---------- resolve ----------

  /** A sequence of cd commands. */
  function CdAll(dir: seq<string>, paths: seq<string>): seq<string>
    decreases |paths|
  {
    if paths == [] then dir else CdAll(Cd(dir, paths[0]), paths[1..])
  }

  function AllParts(paths: seq<string>): seq<string> {
    if paths == [] then [] else Parts(paths[0]) + AllParts(paths[1..])
  }

  predicate AllRelative(paths: seq<string>) {
    forall k :: 0 <= k < |paths| ==> !Absolute(paths[k])
  }

  lemma {:induction false} LeadAppend(dir: seq<string>, a: seq<string>, b: seq<string>)
    ensures Lead(dir, a + b) == Lead(Lead(dir, a), b)
  {
    if b == [] {
      assert a + b == a;
    } else {
      LeadAppend(dir, a, b[..|b| - 1]);
      assert (a + b)[..|a + b| - 1] == a + b[..|b| - 1];
    }
  }

  lemma {:induction false} CdRelative(dir: seq<string>, paths: seq<string>)
    requires AllRelative(paths)
    ensures CdAll(dir, paths) == Lead(dir, AllParts(paths))
    decreases |paths|
  {
    if paths != [] {
      assert !Absolute(paths[0]);
      assert AllRelative(paths[1..]);
      hide Absolute, Parts;
      CdRelative(Cd(dir, paths[0]), paths[1..]);
      LeadAppend(dir, Parts(paths[0]), AllParts(paths[1..]));
    }
  }

  /** Paths before an absolute one do not matter. */
  lemma {:induction false} CdFromAbsolute(dir: seq<string>, paths: seq<string>, k: nat)
    requires k < |paths| && Absolute(paths[k]) && AllRelative(paths[k + 1..])
    ensures CdAll(dir, paths) == Lead([], AllParts(paths[k..]))
    decreases |paths|
  {
    hide Parts;
    if k == 0 {
      var rest := paths[1..];
      hide Absolute;
      assert paths[0..] == paths && AllParts(paths) == Parts(paths[0]) + AllParts(rest);
      CdRelative(Cd(dir, paths[0]), rest);
      LeadAppend([], Parts(paths[0]), AllParts(rest));
    } else {
      assert paths[1..][k - 1..] == paths[k..] && paths[1..][k..] == paths[k + 1..];
      CdFromAbsolute(Cd(dir, paths[0]), paths[1..], k - 1);
    }
  }

  /** The names of the directory that parts lead to from the root. */
  lemma LeadFromRoot(parts: seq<string>)
    ensures Lead([], parts) == Stack(parts, false)
  {
    LeadIsLand([], parts);
    assert [] + Walked(parts).names == Walked(parts).names;
  }

  lemma PartsOfEmpty()
    ensures Parts("") == []
  {
    PartsJoin([]);
  }

  /**
   * The paths are taken from the last to the first, and the working directory, until one is absolute: what resolve returns is where
   * a sequence of cd commands leads, as an absolute path; only when nothing is absolute it is a relative one.
   */
  method Resolve(paths: seq<string>, cwd: string) returns (r: string)
    ensures var all := [cwd] + paths;
      if AllRelative(all) then
        var joined := Join(Stack(AllParts(all), true)); r == if joined == "" then Dot() else joined
      else r == "/" + Join(CdAll([], all))
  {
    ghost var all := [cwd] + paths;
    var resolvedPath, resolvedAbsolute := "", false;
    var i := |paths| - 1;
    GatheredNone(all);
    hide Gathered, Slashed, Stack, Join, CdAll, AllRelative;
    while i >= -1 && !resolvedAbsolute
      invariant -2 <= i < |paths| && Gathered(all, i + 2, resolvedPath, resolvedAbsolute)
      invariant i == -2 || !resolvedAbsolute || i + 2 < |all|
    {
      var path := if i >= 0 then paths[i] else cwd;
      assert path == all[i + 1];
      GatheredStep(all, i + 1, resolvedPath);
      if |path| != 0 {
        resolvedPath := Slashed(path, resolvedPath);
        resolvedAbsolute := path[0] == '/';
      }
      i := i - 1;
    }
    r := Assemble(all, i + 2, resolvedPath, resolvedAbsolute);
  }

  /** What resolve has gathered of the paths from k on; it stops at the last absolute one. */
  ghost predicate Gathered(all: seq<string>, k: int, resolvedPath: string, resolvedAbsolute: bool) {
    && 0 <= k <= |all| && Parts(resolvedPath) == AllParts(all[k..])
    && if resolvedAbsolute then k < |all| && Absolute(all[k]) && AllRelative(all[k + 1..]) else AllRelative(all[k..])
  }

  lemma GatheredNone(all: seq<string>)
    ensures Gathered(all, |all|, "", false)
  {
    PartsOfEmpty();
    assert all[|all|..] == [];
  }

  lemma GatheredStep(all: seq<string>, k: nat, resolvedPath: string)
    requires k < |all| && Gathered(all, k + 1, resolvedPath, false)
    ensures var path := all[k];
      if |path| == 0 then Gathered(all, k, resolvedPath, false) else Gathered(all, k, Slashed(path, resolvedPath), path[0] == '/')
  {
    var path, rest := all[k], all[k + 1..];
    assert all[k..][1..] == rest && all[k..][0] == path;
    NotAbsolute(path);
    PartsConcat(path, resolvedPath);
    hide Parts, Slashed;
    assert [] + Parts(resolvedPath) == Parts(resolvedPath);
    assert !Absolute(path) ==> AllRelative(all[k..]) by {
      hide Absolute;
    }
  }

  /** The path is complete: normalize it. */
  method Assemble(ghost all: seq<string>, ghost k: nat, resolvedPath: string, resolvedAbsolute: bool) returns (r: string)
    requires Gathered(all, k, resolvedPath, resolvedAbsolute) && (k == 0 || resolvedAbsolute)
    ensures if AllRelative(all) then var joined := Join(Stack(AllParts(all), true)); r == if joined == "" then Dot() else joined
            else r == "/" + Join(CdAll([], all))
  {
    hide Parts, Absolute, Stack, Join;
    var parts := NormalizeArray(Parts(resolvedPath), !resolvedAbsolute);
    var joined := Join(parts);
    if resolvedAbsolute {
      CdFromAbsolute([], all, k);
      LeadFromRoot(AllParts(all[k..]));
      r := "/" + joined;
    } else {
      assert all[0..] == all;
      r := if joined == "" then Dot() else joined;
    }
  }

  lemma NotAbsolute(path: string)
    ensures |path| == 0 ==> !Absolute(path) && Parts(path) == []
  {
    PartsOfEmpty();
    assert |path| == 0 ==> path == "";
  }

  // ---------- relative ----------

  function Common(a: seq<string>, b: seq<string>): (n: nat)
    ensures n <= |a| && n <= |b| && a[..n] == b[..n]
  {
    if a == [] || b == [] || a[0] != b[0] then 0 else 1 + Common(a[1..], b[1..])
  }

  /** Up from one directory to what it has in common with another, and down to that. */
  function Between(from: seq<string>, to: seq<string>): seq<string> {
    Dots(|from| - Common(from, to)) + to[Common(from, to)..]
  }

  lemma {:induction false} CommonIs(a: seq<string>, b: seq<string>, n: nat)
    requires n <= |a| && n <= |b| && a[..n] == b[..n] && (n < |a| && n < |b| ==> a[n] != b[n])
    ensures Common(a, b) == n
  {
    if n > 0 {
      assert a[0] == a[..n][0] == b[0];
      assert a[1..][..n - 1] == a[..n][1..] && b[1..][..n - 1] == b[..n][1..];
      CommonIs(a[1..], b[1..], n - 1);
    }
  }

  /** The way between two directories leads from the one to the other. */
  lemma BetweenLeads(from: seq<string>, to: seq<string>)
    requires AllPlain(to)
    ensures Lead(from, Between(from, to)) == to
  {
    hide Common, Lead, Plain, Dots, Walked, Step;
    var n := Common(from, to);
    var up, down := Dots(|from| - n), to[n..];
    LeadAppend(from, up, down);
    UpLeads(from, |from| - n);
    DownLeads(from[..n], down);
    assert from[..n] + down == to;
  }

  lemma UpLeads(dir: seq<string>, n: nat)
    requires n <= |dir|
    ensures Lead(dir, Dots(n)) == dir[..|dir| - n]
  {
    hide Lead, Walked, Dots;
    WalkedDots(n);
    LeadIsLand(dir, Dots(n));
    assert dir[..|dir| - n] + [] == dir[..|dir| - n];
  }

  lemma DownLeads(dir: seq<string>, names: seq<string>)
    requires AllPlain(names)
    ensures Lead(dir, names) == dir + names
  {
    hide Lead, Walked, Plain;
    WalkedPlain(names);
    LeadIsLand(dir, names);
    assert dir[..|dir|] == dir;
  }

  /** The directory a path names in a process. */
  function Directory(cwd: string, path: string): seq<string> {
    CdAll([], [cwd, path])
  }

  lemma DirectoryNames(cwd: string, path: string)
    requires Absolute(cwd)
    ensures AllPlain(Directory(cwd, path)) && AllNames(Directory(cwd, path))
  {
    var all := [cwd, path];
    var k := if Absolute(path) then 1 else 0;
    CdFromAbsolute([], all, k);
    var parts := AllParts(all[k..]);
    LeadFromRoot(parts);
    DotsLead(parts);
    AllPartsNames(all[k..]);
    WalkedNames(parts);
    hide Plain, Name, Walked;
    assert [] + Walked(parts).names == Walked(parts).names;
  }

  lemma {:induction false} AllPartsNames(paths: seq<string>)
    ensures AllNames(AllParts(paths))
  {
    if paths != [] {
      PartsAreNames(paths[0]);
      AllPartsNames(paths[1..]);
      hide Name, Parts;
    }
  }

  /** Array.prototype.slice with bounds that are not negative. */
  function Slice(parts: seq<string>, start: nat, end: int): seq<string> {
    var stop := if end > |parts| then |parts| else end;
    if start < stop then parts[start..stop] else []
  }

  /** Takes a list without empty parts at its ends as it is, and nothing from a list of one empty part. */
  method Trim(parts: seq<string>) returns (r: seq<string>)
    ensures parts == [""] ==> r == []
    ensures parts != [] && parts[0] != "" && parts[|parts| - 1] != "" ==> r == parts
  {
    var start := 0;
    while start < |parts| && parts[start] == ""
      invariant 0 <= start <= |parts|
      invariant parts != [] && parts[0] != "" ==> start == 0
      invariant forall k :: 0 <= k < start ==> parts[k] == ""
    {
      start := start + 1;
    }
    var end := |parts| - 1;
    while end >= 0 && parts[end] == ""
      invariant -1 <= end < |parts|
      invariant parts != [] && parts[|parts| - 1] != "" ==> end == |parts| - 1
    {
      end := end - 1;
    }
    if start > end {
      return [];
    }
    r := Slice(parts, start, end - start + 1);
  }

  lemma TrimmedNames(names: seq<string>)
    requires AllNames(names)
    ensures if names == [] then Split(Join(names), '/') == [""]
            else Split(Join(names), '/') == names && names[0] != "" && names[|names| - 1] != ""
  {
    if names != [] {
      SplitJoin(names);
      assert Name(names[0]) && Name(names[|names| - 1]);
    }
  }

  /** A path that leads from one directory to the other. */
  method Relative(from0: string, to0: string, cwd: string) returns (r: string)
    requires Absolute(cwd)
    ensures r == Join(Between(Directory(cwd, from0), Directory(cwd, to0)))
  {
    var fromParts := ResolvedParts(from0, cwd);
    var toParts := ResolvedParts(to0, cwd);
    var length := if |fromParts| < |toParts| then |fromParts| else |toParts|;
    var samePartsLength, i := length, 0;
    while i < length
      invariant 0 <= i <= length && fromParts[..i] == toParts[..i] && samePartsLength == length
    {
      if fromParts[i] != toParts[i] {
        samePartsLength := i;
        break;
      }
      i := i + 1;
    }
    CommonIs(fromParts, toParts, samePartsLength);
    var outputParts: seq<string> := [];
    i := samePartsLength;
    while i < |fromParts|
      invariant samePartsLength <= i <= |fromParts| && outputParts == Dots(i - samePartsLength)
    {
      DotsSnoc(i - samePartsLength);
      outputParts := outputParts + [Up()];
      i := i + 1;
    }
    outputParts := outputParts + toParts[samePartsLength..];
    r := Join(outputParts);
  }

  /** The parts relative takes of a path: those of its directory. */
  method ResolvedParts(path: string, cwd: string) returns (parts: seq<string>)
    requires Absolute(cwd)
    ensures parts == Directory(cwd, path)
  {
    var resolved := Resolve([path], cwd);
    assert [cwd] + [path] == [cwd, path];
    assert !AllRelative([cwd, path]) by {
      assert Absolute([cwd, path][0]);
    }
    ghost var names := Directory(cwd, path);
    DirectoryNames(cwd, path);
    TrimmedNames(names);
    assert resolved[1..] == Join(names);
    parts := Trim(Split(resolved[1..], '/'));
  }

  /** resolve(from, relative(from, to)) is resolve(to), for every working directory. */
  lemma RelativeLeadsBack(from: string, to: string, cwd: string)
    requires Absolute(cwd)
    ensures var way := Join(Between(Directory(cwd, from), Directory(cwd, to)));
      CdAll([], [cwd, from, way]) == CdAll([], [cwd, to])
  {
    var f, t := Directory(cwd, from), Directory(cwd, to);
    var between := Between(f, t);
    DirectoryNames(cwd, from);
    DirectoryNames(cwd, to);
    BetweenLeads(f, t);
    BetweenNames(f, t);
    PartsJoin(between);
    var way := Join(between);
    assert !Absolute(way) by {
      if between != [] {
        JoinEnds(between);
      }
    }
    hide Absolute, Parts, Join, Between, Plain, Name, CdAll;
    CdThree(cwd, from, way);
    assert Cd(f, way) == Lead(f, Parts(way));
  }

  lemma CdThree(a: string, b: string, c: string)
    ensures CdAll([], [a, b, c]) == Cd(CdAll([], [a, b]), c)
  {
    hide Cd;
    var dir := Cd([], a);
    assert [a, b, c][1..] == [b, c] && [b, c][1..] == [c] && [c][1..] == [];
    assert [a, b][1..] == [b] && [b][1..] == [];
    assert CdAll(dir, [b, c]) == CdAll(Cd(dir, b), [c]);
    assert CdAll(dir, [b]) == CdAll(Cd(dir, b), []);
  }

  lemma BetweenNames(from: seq<string>, to: seq<string>)
    requires AllNames(to)
    ensures AllNames(Between(from, to))
  {
    DotIsName();
    hide Name;
  }
}
