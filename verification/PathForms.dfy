/** Paths in literal characters: what the parts of a path are, what each does to a directory, that no way between two directories is
    shorter than relative's, and paths in full. */
module PathForms {
  import opened Text
  import opened PosixPath

  // ---------- parts ----------

  predicate SlashFree(parts: seq<string>) {
    forall k :: 0 <= k < |parts| ==> '/' !in parts[k]
  }

  /** Any strings without slashes, with one slash between each two, split into these strings. */
  lemma {:induction false} SplitsInto(parts: seq<string>)
    requires SlashFree(parts) && parts != []
    ensures Split(Join(parts), '/') == parts
  {
    SplitNone(parts[0], '/');
    if |parts| > 1 {
      SplitsInto(parts[1..]);
      SplitConcat(parts[0], '/', Join(parts[1..]));
    }
  }

  /** The parts of a path are what is between its slashes, but for the empty strings. */
  lemma PartsAre(parts: seq<string>)
    requires SlashFree(parts) && parts != []
    ensures Parts(Join(parts)) == NonEmpty(parts)
  {
    SplitsInto(parts);
  }

  /** Joining puts one slash between. */
  lemma JoinIs(part: string, parts: seq<string>)
    ensures Join([]) == "" && Join([part]) == part && (parts != [] ==> Join([part] + parts) == part + [47 as char] + Join(parts))
  {
    assert ([part] + parts)[1..] == parts;
  }

  lemma AbsoluteIs(path: string)
    ensures Absolute(path) <==> |path| > 0 && path[0] as int == 47
    ensures Trailing(path) <==> |path| > 0 && path[|path| - 1] as int == 47
  {
  }

  /** '.' stays, '..' leads to the parent, in the root to the root, and a name into a directory. */
  lemma Entering(dir: seq<string>, name: string)
    ensures Enter(dir, ".") == dir && Enter([], "..") == [] && Enter(dir + [name], "..") == dir
    ensures name != "." && name != ".." ==> Enter(dir, name) == dir + [name]
  {
  }

  // ---------- the shortest way ----------

  /** How many steps two directories are apart: up to the last they have in common, and down. */
  function Apart(a: seq<string>, b: seq<string>): nat {
    |a| + |b| - 2 * Common(a, b)
  }

  lemma {:induction false} CommonMore(a: seq<string>, x: string, b: seq<string>)
    ensures Common(a, b) <= Common(a + [x], b) <= Common(a, b) + 1
  {
    if a != [] && b != [] && a[0] == b[0] {
      assert (a + [x])[1..] == a[1..] + [x];
      CommonMore(a[1..], x, b[1..]);
    }
  }

  lemma EnterBrings(dir: seq<string>, part: string, b: seq<string>)
    ensures Apart(dir, b) <= Apart(Enter(dir, part), b) + 1
  {
    if dir != [] {
      CommonMore(dir[..|dir| - 1], dir[|dir| - 1], b);
      assert dir == dir[..|dir| - 1] + [dir[|dir| - 1]];
    }
    CommonMore(dir, part, b);
  }

  lemma {:induction false} LeadBrings(dir: seq<string>, parts: seq<string>, b: seq<string>)
    ensures Apart(dir, b) <= Apart(Lead(dir, parts), b) + |parts|
  {
    if parts != [] {
      LeadBrings(dir, parts[..|parts| - 1], b);
      EnterBrings(Lead(dir, parts[..|parts| - 1]), parts[|parts| - 1], b);
    }
  }

  lemma {:induction false} CommonSelf(a: seq<string>)
    ensures Common(a, a) == |a|
  {
    if a != [] {
      CommonSelf(a[1..]);
    }
  }

  /** No parts that lead from one directory to another are fewer than those of relative. */
  lemma BetweenIsShortest(from: seq<string>, dest: seq<string>, parts: seq<string>)
    requires Lead(from, parts) == dest
    ensures |Between(from, dest)| <= |parts|
  {
    LeadBrings(from, parts, dest);
    CommonSelf(dest);
  }

  // ---------- paths ----------

  lemma WalkMore(parts: seq<string>, part: string, w: Walk)
    requires Walked(parts) == w
    ensures part == "." ==> Walked(parts + [part]) == w
    ensures part == ".." ==> Walked(parts + [part]) == if w.names == [] then Walk(w.ups + 1, []) else Walk(w.ups, w.names[..|w.names| - 1])
    ensures part != "." && part != ".." ==> Walked(parts + [part]) == Walk(w.ups, w.names + [part])
  {
    assert (parts + [part])[..|parts|] == parts;
  }

  lemma NormalizedIs(parts: seq<string>, w: Walk)
    requires SlashFree(parts) && parts != [] && Walked(NonEmpty(parts)) == w
    ensures var path := Join(parts);
      var rooted, joined := path != "" && path[0] == '/', Join((if path != "" && path[0] == '/' then [] else Dots(w.ups)) + w.names);
      var body := if joined == "" && !rooted then "." else joined;
      Normalized(path) == (if rooted then "/" else "") + body + (if body != "" && path != "" && path[|path| - 1] == '/' then "/" else "")
  {
    hide Walked, NonEmpty, Split, Join, Dots;
    PartsAre(parts);
    var path := Join(parts);
    var rooted, joined := path != "" && path[0] == '/', Join((if path != "" && path[0] == '/' then [] else Dots(w.ups)) + w.names);
    var body := if joined == "" && !rooted then "." else joined;
    assert (if rooted then "/" else "") + (body + "/") == (if rooted then "/" else "") + body + "/";
    assert (if rooted then "/" else "") + body + "" == (if rooted then "/" else "") + body;
  }

  lemma WalkedNone()
    ensures Walked([]) == Walk(0, [])
  {
  }

  lemma {:induction false} AllNonEmpty(parts: seq<string>)
    requires forall k :: 0 <= k < |parts| ==> parts[k] != ""
    ensures NonEmpty(parts) == parts
  {
    if parts != [] {
      AllNonEmpty(parts[1..]);
    }
  }

  lemma BeyondRootJoin()
    ensures Join(["", "..", "a"]) == "/../a"
  {
    hide Join;
    JoinIs("a", []);
    JoinIs("..", ["a"]);
    assert [".."] + ["a"] == ["..", "a"] && ".." + [47 as char] + "a" == "../a";
    JoinIs("", ["..", "a"]);
    assert [""] + ["..", "a"] == ["", "..", "a"] && "" + [47 as char] + "../a" == "/../a";
  }

  lemma BeyondRootParts()
    ensures NonEmpty(["", "..", "a"]) == ["..", "a"]
  {
    hide NonEmpty;
    AllNonEmpty(["..", "a"]);
    NonEmptyCons("", ["..", "a"]);
    assert [""] + ["..", "a"] == ["", "..", "a"] && [] + ["..", "a"] == ["..", "a"];
  }

  lemma BeyondRootWalk()
    ensures Walked(["..", "a"]) == Walk(1, ["a"])
  {
    hide Walked;
    WalkedNone();
    WalkMore([], "..", Walk(0, []));
    assert [] + [".."] == [".."];
    WalkMore([".."], "a", Walk(1, []));
    assert [".."] + ["a"] == ["..", "a"];
  }

  /** '..' in the root leads to the root. */
  lemma BeyondRoot()
    ensures Normalized("/../a") == "/a"
  {
    hide Walked, Normalized, NonEmpty;
    BeyondRootJoin();
    BeyondRootParts();
    BeyondRootWalk();
    NormalizedIs(["", "..", "a"], Walk(1, ["a"]));
  }

  lemma SettledJoin()
    ensures Join(["a", ".", "b", "..", "c"]) == "a/./b/../c"
  {
    hide Join;
    JoinIs("c", []);
    JoinIs("..", ["c"]);
    assert [".."] + ["c"] == ["..", "c"] && ".." + [47 as char] + "c" == "../c";
    JoinIs("b", ["..", "c"]);
    assert ["b"] + ["..", "c"] == ["b", "..", "c"] && "b" + [47 as char] + "../c" == "b/../c";
    JoinIs(".", ["b", "..", "c"]);
    assert ["."] + ["b", "..", "c"] == [".", "b", "..", "c"] && "." + [47 as char] + "b/../c" == "./b/../c";
    JoinIs("a", [".", "b", "..", "c"]);
    assert ["a"] + [".", "b", "..", "c"] == ["a", ".", "b", "..", "c"] && "a" + [47 as char] + "./b/../c" == "a/./b/../c";
  }

  lemma SettledParts()
    ensures NonEmpty(["a", ".", "b", "..", "c"]) == ["a", ".", "b", "..", "c"]
  {
    hide NonEmpty;
    AllNonEmpty(["a", ".", "b", "..", "c"]);
  }

  lemma SettledWalk()
    ensures Walked(["a", ".", "b", "..", "c"]) == Walk(0, ["a", "c"])
  {
    hide Walked;
    WalkedNone();
    WalkMore([], "a", Walk(0, []));
    assert [] + ["a"] == ["a"];
    WalkMore(["a"], ".", Walk(0, ["a"]));
    assert ["a"] + ["."] == ["a", "."];
    WalkMore(["a", "."], "b", Walk(0, ["a"]));
    assert ["a", "."] + ["b"] == ["a", ".", "b"];
    WalkMore(["a", ".", "b"], "..", Walk(0, ["a", "b"]));
    assert ["a", ".", "b"] + [".."] == ["a", ".", "b", ".."];
    WalkMore(["a", ".", "b", ".."], "c", Walk(0, ["a"]));
    assert ["a", ".", "b", ".."] + ["c"] == ["a", ".", "b", "..", "c"];
  }

  /** A name and the '..' after it are settled, and '.' is left out. */
  lemma Settled()
    ensures Normalized("a/./b/../c") == "a/c"
  {
    hide Walked, Normalized, NonEmpty;
    SettledJoin();
    SettledParts();
    SettledWalk();
    NormalizedIs(["a", ".", "b", "..", "c"], Walk(0, ["a", "c"]));
  }

  lemma AboveJoin()
    ensures Join(["..", "a", ""]) == "../a/"
  {
    hide Join;
    JoinIs("", []);
    JoinIs("a", [""]);
    assert ["a"] + [""] == ["a", ""] && "a" + [47 as char] + "" == "a/";
    JoinIs("..", ["a", ""]);
    assert [".."] + ["a", ""] == ["..", "a", ""] && ".." + [47 as char] + "a/" == "../a/";
  }

  lemma AboveParts()
    ensures NonEmpty(["..", "a", ""]) == ["..", "a"]
  {
    hide NonEmpty;
    AllNonEmpty(["..", "a"]);
    NonEmptyConcat(["..", "a"], [""]);
    NonEmptyCons("", []);
    NoneIsEmpty();
    assert ["..", "a"] + [""] == ["..", "a", ""] && ["..", "a"] + [] == ["..", "a"] && [""] + [] == [""];
  }

  lemma AboveWalk()
    ensures Walked(["..", "a"]) == Walk(1, ["a"])
  {
    hide Walked;
    WalkedNone();
    WalkMore([], "..", Walk(0, []));
    assert [] + [".."] == [".."];
    WalkMore([".."], "a", Walk(1, []));
    assert [".."] + ["a"] == ["..", "a"];
  }

  /** Without a root '..' stays, and a slash at the end as well. */
  lemma Above()
    ensures Normalized("../a/") == "../a/"
  {
    hide Walked, Normalized, NonEmpty;
    AboveJoin();
    AboveParts();
    AboveWalk();
    NormalizedIs(["..", "a", ""], Walk(1, ["a"]));
  }

  lemma HereJoin()
    ensures Join(["a", ".."]) == "a/.."
  {
    hide Join;
    JoinIs("..", []);
    JoinIs("a", [".."]);
    assert ["a"] + [".."] == ["a", ".."] && "a" + [47 as char] + ".." == "a/..";
  }

  lemma HereParts()
    ensures NonEmpty(["a", ".."]) == ["a", ".."]
  {
    hide NonEmpty;
    AllNonEmpty(["a", ".."]);
  }

  lemma HereWalk()
    ensures Walked(["a", ".."]) == Walk(0, [])
  {
    hide Walked;
    WalkedNone();
    WalkMore([], "a", Walk(0, []));
    assert [] + ["a"] == ["a"];
    WalkMore(["a"], "..", Walk(0, ["a"]));
    assert ["a"] + [".."] == ["a", ".."];
  }

  /** A relative path to where it begins is a dot. */
  lemma Here()
    ensures Normalized("a/..") == "."
  {
    hide Walked, Normalized, NonEmpty;
    HereJoin();
    HereParts();
    HereWalk();
    NormalizedIs(["a", ".."], Walk(0, []));
  }

  lemma LeadMore(dir: seq<string>, parts: seq<string>, part: string)
    ensures Lead(dir, []) == dir && Lead(dir, parts + [part]) == Enter(Lead(dir, parts), part)
  {
    assert (parts + [part])[..|parts|] == parts;
  }

  lemma CdMore(dir: seq<string>, path: string, paths: seq<string>)
    ensures CdAll(dir, []) == dir && CdAll(dir, [path] + paths) == CdAll(Cd(dir, path), paths)
  {
    hide Cd;
    assert ([path] + paths)[1..] == paths;
  }

  lemma PartsOfSlashed(name: string)
    requires Name(name)
    ensures Parts(name + "/") == [name]
  {
    hide Parts;
    PartsConcat(name, "");
    PartsOfName(name);
    PartsOfEmpty();
    assert Slashed(name, "") == name + "/" && [name] + [] == [name];
  }

  lemma VarLibParts()
    ensures Parts("/var/lib") == ["var", "lib"]
  {
    hide Parts;
    PartsConcat("", "var/lib");
    PartsConcat("var", "lib");
    PartsOfEmpty();
    PartsOfName("var");
    PartsOfName("lib");
    assert Slashed("", "var/lib") == "/var/lib" && Slashed("var", "lib") == "var/lib";
    assert ["var"] + ["lib"] == ["var", "lib"] && [] + ["var", "lib"] == ["var", "lib"];
  }

  lemma VarLib(cwd: seq<string>)
    ensures Cd(cwd, "/var/lib") == ["var", "lib"]
  {
    hide Parts, Lead;
    VarLibParts();
    LeadMore([], [], "var");
    LeadMore([], ["var"], "lib");
    assert [] + ["var"] == ["var"] && ["var"] + ["lib"] == ["var", "lib"];
  }

  lemma UpAndFile()
    ensures Cd(["var", "lib"], "../") == ["var"] && Cd(["var"], "file/") == ["var", "file"]
  {
    hide Parts, Lead;
    PartsOfSlashed("..");
    PartsOfSlashed("file");
    LeadMore(["var", "lib"], [], "..");
    LeadMore(["var"], [], "file");
    assert ".." + "/" == "../" && "file" + "/" == "file/";
    assert [] + [".."] == [".."] && [] + ["file"] == ["file"] && ["var", "lib"][..1] == ["var"] && ["var"] + ["file"] == ["var", "file"];
  }

  lemma CdVarFile(cwd: string)
    ensures CdAll([], [cwd] + ["/var/lib", "../", "file/"]) == ["var", "file"]
  {
    hide Cd, CdAll;
    var dir := Cd([], cwd);
    VarLib(dir);
    UpAndFile();
    CdMore([], cwd, ["/var/lib", "../", "file/"]);
    CdMore(dir, "/var/lib", ["../", "file/"]);
    CdMore(["var", "lib"], "../", ["file/"]);
    CdMore(["var"], "file/", []);
    CdMore(["var", "file"], "", []);
    assert ["/var/lib"] + ["../", "file/"] == ["/var/lib", "../", "file/"] && ["../"] + ["file/"] == ["../", "file/"] && ["file/"] + [] == ["file/"];
  }

  /** From any working directory, resolve of these three is /var/file. */
  lemma ResolvesVarFile(cwd: string)
    ensures "/" + Join(CdAll([], [cwd] + ["/var/lib", "../", "file/"])) == "/var/file"
  {
    hide CdAll;
    CdVarFile(cwd);
    assert Join(["var", "file"]) == "var/file";
  }
}
