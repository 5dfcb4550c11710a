/** Flattening a directory tree into a list of named entries, and rebuilding it.  The zip
    container is the list itself. */
module Archive {
  import opened Chunking

  datatype Node = File(data: Bytes) | Dir(kids: map<string, Node>)

  datatype Entry = Entry(name: string, isDir: bool, data: Bytes)

  /** An entry with its path cut into names. */
  datatype Item = Item(path: seq<string>, isDir: bool, data: Bytes)

  datatype Result<T> = Success(value: T) | Failure {
    predicate IsFailure() { Failure? }
    function PropagateFailure<U>(): Result<U>
      requires Failure?
    {
      Result<U>.Failure
    }
    function Extract(): T
      requires Success?
    {
      value
    }
  }

  // ---------- names ----------

  /** What a file system accepts as the name of a directory entry. */
  predicate ValidName(name: string) {
    name != "" && name != "." && name != ".." && '/' !in name
  }

  predicate ValidPath(path: seq<string>) {
    forall k :: 0 <= k < |path| ==> ValidName(path[k])
  }

  predicate DottedPath(path: seq<string>) {
    exists k :: 0 <= k < |path| && Dots(path[k])
  }

  predicate WellNamed(t: Node) {
    t.Dir? ==> forall name :: name in t.kids ==> ValidName(name) && WellNamed(t.kids[name])
  }

  predicate Dots(s: string) {
    exists i :: 0 <= i < |s| - 1 && s[i] == '.' && s[i + 1] == '.'
  }

  /** Some name in the tree contains "..". */
  predicate DottedTree(t: Node) {
    t.Dir? && exists name :: name in t.kids && (Dots(name) || DottedTree(t.kids[name]))
  }

  /** The string holds two dots in a row. */
  lemma DotsExact(s: string)
    ensures Dots(s) <==> exists a, b: string :: s == a + ".." + b
  {
    if i :| 0 <= i < |s| - 1 && s[i] == '.' && s[i + 1] == '.' {
      assert s == s[..i] + ".." + s[i + 2..];
    }
    if a, b: string :| s == a + ".." + b {
      assert s[|a|] == '.' && s[|a| + 1] == '.';
    }
  }

  /** The names of a path with slashes between them: a path relative to the walked directory. */
  function Rel(path: seq<string>): string {
    if path == [] then ""
    else if |path| == 1 then path[0]
    else path[0] + "/" + Rel(path[1..])
  }

  /** How the operating system reads a path: cut at slashes, empty names and "." dropped. */
  function Components(s: string, current: string := ""): seq<string> {
    if s == "" then Named(current)
    else if s[0] == '/' then Named(current) + Components(s[1..], "")
    else Components(s[1..], current + [s[0]])
  }

  function Named(current: string): seq<string> {
    if current == "" || current == "." then [] else [current]
  }

  /** The part of a path up to its last slash. */
  function DirPart(s: string): string {
    if s == "" then "" else if s[|s| - 1] == '/' then s else DirPart(s[..|s| - 1])
  }

  // ---------- walking ----------

  predicate LessEq(a: string, b: string) {
    a == "" || (b != "" && (a[0] < b[0] || (a[0] == b[0] && LessEq(a[1..], b[1..]))))
  }

  /** Lexical order: a prefix comes first, and otherwise the first difference decides. */
  lemma {:induction false} LessEqIsLexical(a: string, b: string)
    ensures LessEq(a, b) <==> a <= b || exists k :: 0 <= k < |a| && k < |b| && a[..k] == b[..k] && a[k] < b[k]
  {
    if a != "" && b != "" {
      LessEqIsLexical(a[1..], b[1..]);
      if a[0] == b[0] {
        assert a == [a[0]] + a[1..] && b == [b[0]] + b[1..];
        if k :| 0 <= k < |a| && k < |b| && a[..k] == b[..k] && a[k] < b[k] {
          assert k > 0 && a[1..][..k - 1] == a[..k][1..] && b[1..][..k - 1] == b[..k][1..];
          assert a[1..][k - 1] < b[1..][k - 1];
        }
        if k :| 0 <= k < |a[1..]| && k < |b[1..]| && a[1..][..k] == b[1..][..k] && a[1..][k] < b[1..][k] {
          assert a[..k + 1] == [a[0]] + a[1..][..k] && b[..k + 1] == [b[0]] + b[1..][..k];
          assert a[k + 1] < b[k + 1];
        }
      } else {
        assert a[..0] == b[..0];
        forall k | 0 < k < |a| && k < |b| ensures a[..k] != b[..k] {
          assert a[..k][0] == a[0] && b[..k][0] == b[0];
        }
      }
    }
  }

  lemma LessEqTotal(a: string, b: string)
    ensures LessEq(a, b) || LessEq(b, a)
  {
  }

  lemma {:induction false} LessEqAntisymmetric(a: string, b: string)
    requires LessEq(a, b) && LessEq(b, a)
    ensures a == b
  {
    if a != "" {
      LessEqAntisymmetric(a[1..], b[1..]);
      assert a == [a[0]] + a[1..] && b == [b[0]] + b[1..];
    }
  }

  lemma {:induction false} LessEqTransitive(a: string, b: string, c: string)
    requires LessEq(a, b) && LessEq(b, c)
    ensures LessEq(a, c)
  {
    if a != "" && a[0] == b[0] == c[0] { LessEqTransitive(a[1..], b[1..], c[1..]); }
  }

  lemma {:induction false} LeastExists(names: set<string>)
    requires names != {}
    ensures exists m :: m in names && forall x :: x in names ==> LessEq(m, x)
  {
    var a :| a in names;
    var rest := names - {a};
    LessEqTotal(a, a);
    if rest == {} {
      assert names == {a};
    } else {
      LeastExists(rest);
      var m :| m in rest && forall x :: x in rest ==> LessEq(m, x);
      LessEqTotal(a, m);
      var least := if LessEq(a, m) then a else m;
      forall x | x in names ensures LessEq(least, x) {
        if x != a && least == a { LessEqTransitive(a, m, x); }
      }
    }
  }

  function Least(names: set<string>): (m: string)
    requires names != {}
    ensures m in names && forall x :: x in names ==> LessEq(m, x)
  {
    LeastExists(names);
    assert forall m, m' | m in names && (forall x :: x in names ==> LessEq(m, x))
                          && m' in names && (forall x :: x in names ==> LessEq(m', x)) :: m == m' by {
      forall m, m' | m in names && (forall x :: x in names ==> LessEq(m, x))
                     && m' in names && (forall x :: x in names ==> LessEq(m', x)) ensures m == m' {
        LessEqAntisymmetric(m, m');
      }
    }
    var m :| m in names && forall x :: x in names ==> LessEq(m, x);
    m
  }

  predicate Distinct(names: seq<string>) {
    forall i, j :: 0 <= i < j < |names| ==> names[i] != names[j]
  }

  /** The names of a directory in the lexical order in which filepath.WalkDir visits them. */
  function Sorted(names: set<string>): (s: seq<string>)
    ensures forall x :: x in s <==> x in names
    ensures Distinct(s)
    ensures forall i, j :: 0 <= i < j < |s| ==> LessEq(s[i], s[j])
  {
    if names == {} then [] else [Least(names)] + Sorted(names - {Least(names)})
  }

  function Prepend(path: seq<string>, items: seq<Item>): (r: seq<Item>)
    ensures |r| == |items|
    ensures forall k :: 0 <= k < |items| ==> r[k] == items[k].(path := path + items[k].path)
  {
    if items == [] then [] else [items[0].(path := path + items[0].path)] + Prepend(path, items[1..])
  }

  /** Everything below a directory, parents before children. */
  function Walk(dir: Node): seq<Item>
    requires dir.Dir?
    decreases dir, 1, 0
  {
    WalkKids(dir, Sorted(dir.kids.Keys))
  }

  function WalkKids(dir: Node, names: seq<string>): seq<Item>
    requires dir.Dir? && forall x :: x in names ==> x in dir.kids
    decreases dir, 0, |names|
  {
    if names == [] then []
    else WalkOne(dir, names[0]) + WalkKids(dir, names[1..])
  }

  function WalkOne(dir: Node, name: string): seq<Item>
    requires dir.Dir? && name in dir.kids
    decreases dir, 0, 0
  {
    match dir.kids[name]
    case File(data) => [Item([name], false, data)]
    case Dir(_) => [Item([name], true, [])] + Prepend([name], Walk(dir.kids[name]))
  }

  /** The zip header of a walked path. */
  function EntryOf(item: Item): Entry {
    Entry(Rel(item.path) + (if item.isDir then "/" else ""), item.isDir, item.data)
  }

  function Entries(items: seq<Item>): (r: seq<Entry>)
    ensures |r| == |items| && forall k :: 0 <= k < |r| ==> r[k] == EntryOf(items[k])
  {
    if items == [] then [] else [EntryOf(items[0])] + Entries(items[1..])
  }

  function ZipDir(dir: Node): seq<Entry>
    requires dir.Dir?
  {
    Entries(Walk(dir))
  }

  // ---------- unpacking ----------

  /** os.MkdirAll below `node`. */
  function MkdirAll(node: Node, path: seq<string>): Result<Node>
    decreases |path|
  {
    if node.File? then Failure
    else if path == [] then Success(node)
    else
      var kid :- MkdirAll(if path[0] in node.kids then node.kids[path[0]] else Dir(map[]), path[1..]);
      Success(Dir(node.kids[path[0] := kid]))
  }

  /** Opening a file for writing, truncated, and filling it. */
  function WriteFile(node: Node, path: seq<string>, data: Bytes): Result<Node>
    decreases |path|
  {
    if path == [] || node.File? then Failure
    else if |path| == 1 then
      if path[0] in node.kids && node.kids[path[0]].Dir? then Failure
      else Success(Dir(node.kids[path[0] := File(data)]))
    else if path[0] !in node.kids then Failure
    else
      var kid :- WriteFile(node.kids[path[0]], path[1..], data);
      Success(Dir(node.kids[path[0] := kid]))
  }

  /** One entry of the archive, after its name was accepted: the tree it leaves, and whether it was
      placed.  The directories of a file stay when the file itself cannot be written. */
  function Place(node: Node, e: Entry): (Node, bool) {
    match MkdirAll(node, Components(if e.isDir then e.name else DirPart(e.name)))
    case Failure => (node, false)
    case Success(made) =>
      if e.isDir then (made, true)
      else
        match WriteFile(made, Components(e.name), e.data)
        case Failure => (made, false)
        case Success(written) => (written, true)
  }

  /** The unpack loop: the tree it leaves behind, and whether it ended without error. */
  function Unpack(node: Node, entries: seq<Entry>): (Node, bool)
    decreases |entries|
  {
    if entries == [] then (node, true)
    else if Dots(entries[0].name) then (node, false)
    else
      var placed := Place(node, entries[0]);
      if placed.1 then Unpack(placed.0, entries[1..]) else placed
  }

  // ---------- names and paths ----------

  /** A string cut at every slash; empty pieces stay. */
  function Split(s: string): (pieces: seq<string>)
    ensures |pieces| > 0
  {
    if s == "" then [""]
    else
      var rest := Split(s[1..]);
      if s[0] == '/' then [""] + rest else [[s[0]] + rest[0]] + rest[1..]
  }

  /** The pieces hold no slash, and with single slashes between them they are the string again. */
  lemma {:induction false} SplitExact(s: string)
    ensures forall k :: 0 <= k < |Split(s)| ==> '/' !in Split(s)[k]
    ensures Rel(Split(s)) == s
  {
    if s != "" {
      SplitExact(s[1..]);
      var rest := Split(s[1..]);
      if s[0] == '/' {
        assert Rel([""] + rest) == "" + "/" + Rel(rest) by { assert ([""] + rest)[1..] == rest; }
        assert s == "/" + s[1..];
      } else {
        RelGrows(s[0], rest);
        assert s == [s[0]] + s[1..];
      }
    }
  }

  lemma RelGrows(c: char, pieces: seq<string>)
    requires |pieces| > 0
    ensures Rel([[c] + pieces[0]] + pieces[1..]) == [c] + Rel(pieces)
  {
    var grown := [[c] + pieces[0]] + pieces[1..];
    assert grown[0] == [c] + pieces[0] && grown[1..] == pieces[1..] && |grown| == |pieces|;
    if |pieces| > 1 { HeadFirst([c], pieces[0], Rel(pieces[1..])); }
  }

  lemma HeadFirst(a: string, b: string, rest: string)
    ensures a + b + "/" + rest == a + (b + "/" + rest)
  {
  }

  lemma {:induction false} SplitAtSlash(name: string, rest: string)
    requires '/' !in name
    ensures Split(name) == [name]
    ensures Split(name + "/" + rest) == [name] + Split(rest)
  {
    var s := name + "/" + rest;
    if name == "" {
      assert s[0] == '/' && s[1..] == rest;
    } else {
      SplitAtSlash(name[1..], rest);
      assert s[0] == name[0] && s[1..] == name[1..] + "/" + rest;
      assert [name[0]] + name[1..] == name;
    }
  }

  /** A walked name, cut at its slashes, is the path, with an empty last piece for a directory. */
  lemma {:induction false} SplitOfRel(path: seq<string>)
    requires path != [] && ValidPath(path)
    ensures Split(Rel(path)) == path && Split(Rel(path) + "/") == path + [""]
  {
    SplitAtSlash(path[0], "");
    assert path[0] + "/" + "" == path[0] + "/";
    if |path| > 1 {
      SplitOfRel(path[1..]);
      SplitAtSlash(path[0], Rel(path[1..]));
      SplitAtSlash(path[0], Rel(path[1..]) + "/");
      assert Rel(path) + "/" == path[0] + "/" + (Rel(path[1..]) + "/");
    } else {
      assert path == [path[0]];
    }
  }

  /** The header of a walked path: its names between single slashes, one more slash behind a
      directory, and the bytes of a file. */
  lemma EntryExact(item: Item)
    requires item.path != [] && ValidPath(item.path)
    ensures Split(EntryOf(item).name) == if item.isDir then item.path + [""] else item.path
    ensures EntryOf(item).isDir == item.isDir && EntryOf(item).data == item.data
  {
    SplitOfRel(item.path);
    assert Rel(item.path) + "" == Rel(item.path);
  }

  /** The pieces that name something. */
  function Kept(pieces: seq<string>): seq<string> {
    if pieces == [] then []
    else if pieces[0] == "" || pieces[0] == "." then Kept(pieces[1..])
    else [pieces[0]] + Kept(pieces[1..])
  }

  /** A path is read as its pieces between slashes, without the empty ones and ".". */
  lemma ComponentsExact(s: string)
    ensures Components(s) == Kept(Split(s))
  {
    ComponentsWith(s, "");
    assert [Split(s)[0]] + Split(s)[1..] == Split(s) && "" + Split(s)[0] == Split(s)[0];
  }

  lemma {:induction false} ComponentsWith(s: string, current: string)
    ensures Components(s, current) == Kept([current + Split(s)[0]] + Split(s)[1..])
  {
    var pieces := [current + Split(s)[0]] + Split(s)[1..];
    assert pieces[1..] == Split(s)[1..];
    if s == "" {
      assert current + "" == current;
    } else if s[0] == '/' {
      ComponentsWith(s[1..], "");
      assert current + "" == current && "" + Split(s[1..])[0] == Split(s[1..])[0];
      assert Split(s)[1..] == Split(s[1..]) == [Split(s[1..])[0]] + Split(s[1..])[1..];
    } else {
      ComponentsWith(s[1..], current + [s[0]]);
      assert current + [s[0]] + Split(s[1..])[0] == current + Split(s)[0];
    }
  }

  /** The directory part of a path ends at its last slash. */
  lemma {:induction false} DirPartExact(s: string)
    ensures DirPart(s) <= s && '/' !in s[|DirPart(s)|..]
    ensures DirPart(s) == "" || DirPart(s)[|DirPart(s)| - 1] == '/'
  {
    if s != "" && s[|s| - 1] != '/' {
      var front := s[..|s| - 1];
      DirPartExact(front);
      assert s == front + [s[|s| - 1]];
      assert s[|DirPart(s)|..] == front[|DirPart(s)|..] + [s[|s| - 1]];
    }
  }

  lemma {:induction false} ComponentsOfName(name: string, rest: string, current: string)
    requires '/' !in name
    ensures Components(name + rest, current) == Components(rest, current + name)
  {
    if name == "" {
      assert name + rest == rest && current + name == current;
    } else {
      assert (name + rest)[0] == name[0] && (name + rest)[1..] == name[1..] + rest;
      ComponentsOfName(name[1..], rest, current + [name[0]]);
      assert current + [name[0]] + name[1..] == current + name;
    }
  }

  lemma NameThenSlash(name: string, rest: string)
    requires ValidName(name)
    ensures Components(name + "/" + rest) == [name] + Components(rest)
  {
    ComponentsOfName(name, "/" + rest, "");
    assert name + "/" + rest == name + ("/" + rest) && "" + name == name;
    assert ("/" + rest)[1..] == rest;
  }

  /** Reading a relative path back gives the names it was made of, with and without the slash
      that marks a directory. */
  lemma {:induction false} ComponentsOfRel(path: seq<string>)
    requires ValidPath(path)
    ensures Components(Rel(path)) == path
    ensures path != [] ==> Components(Rel(path) + "/") == path
  {
    if |path| == 1 {
      ComponentsOfName(path[0], "", "");
      assert path[0] + "" == path[0] && "" + path[0] == path[0];
      NameThenSlash(path[0], "");
      assert path[0] + "/" + "" == path[0] + "/";
    } else if |path| > 1 {
      ComponentsOfRel(path[1..]);
      NameThenSlash(path[0], Rel(path[1..]));
      NameThenSlash(path[0], Rel(path[1..]) + "/");
      assert Rel(path) + "/" == path[0] + "/" + (Rel(path[1..]) + "/");
    }
  }

  lemma {:induction false} DirPartOfName(prefix: string, name: string)
    requires '/' !in name && (prefix == "" || prefix[|prefix| - 1] == '/')
    ensures DirPart(prefix + name) == prefix
  {
    if name == "" {
      assert prefix + name == prefix;
    } else {
      var s := prefix + name;
      assert s[|s| - 1] == name[|name| - 1] && s[..|s| - 1] == prefix + name[..|name| - 1];
      DirPartOfName(prefix, name[..|name| - 1]);
    }
  }

  lemma {:induction false} RelSnoc(path: seq<string>, name: string)
    ensures Rel(path + [name]) == if path == [] then name else Rel(path) + "/" + name
  {
    if |path| == 1 {
      assert (path + [name])[1..] == [name];
    } else if |path| > 1 {
      assert (path + [name])[1..] == path[1..] + [name];
      RelSnoc(path[1..], name);
      assert path[0] + "/" + (Rel(path[1..]) + "/" + name) == path[0] + "/" + Rel(path[1..]) + "/" + name;
    }
  }

  /** The directory of a file's path is the path without its last name. */
  lemma ComponentsOfParent(path: seq<string>)
    requires path != [] && ValidPath(path)
    ensures Components(DirPart(Rel(path))) == path[..|path| - 1]
  {
    var parent, name := path[..|path| - 1], path[|path| - 1];
    assert path == parent + [name];
    RelSnoc(parent, name);
    if parent == [] {
      DirPartOfName("", name);
      assert "" + name == name;
      assert Components("") == [];
    } else {
      ComponentsOfRel(parent);
      DirPartOfName(Rel(parent) + "/", name);
    }
  }

  lemma DotsSplit(a: string, b: string)
    ensures Dots(a + "/" + b) <==> Dots(a) || Dots(b)
  {
    var s := a + "/" + b;
    if i :| 0 <= i < |a| - 1 && a[i] == '.' && a[i + 1] == '.' {
      assert s[i] == '.' && s[i + 1] == '.';
    }
    if i :| 0 <= i < |b| - 1 && b[i] == '.' && b[i + 1] == '.' {
      assert s[i + |a| + 1] == '.' && s[i + |a| + 1 + 1] == '.';
    }
    if i :| 0 <= i < |s| - 1 && s[i] == '.' && s[i + 1] == '.' {
      if i + 1 < |a| {
        assert a[i] == '.' && a[i + 1] == '.';
      } else {
        var j := i - |a| - 1;
        assert b[j] == '.' && b[j + 1] == '.';
      }
    }
  }

  lemma DottedCons(path: seq<string>)
    requires path != []
    ensures DottedPath(path) <==> Dots(path[0]) || DottedPath(path[1..])
  {
    if k :| 0 <= k < |path[1..]| && Dots(path[1..][k]) {
      assert Dots(path[k + 1]);
    }
    if k :| 0 <= k < |path| && Dots(path[k]) {
      if k > 0 { assert Dots(path[1..][k - 1]); }
    }
  }

  lemma {:induction false} DotsOfRel(path: seq<string>)
    ensures Dots(Rel(path)) <==> DottedPath(path)
  {
    if |path| > 1 {
      DotsSplit(path[0], Rel(path[1..]));
      DotsOfRel(path[1..]);
      DottedCons(path);
    }
  }

  lemma DotsOfEntry(item: Item)
    ensures Dots(EntryOf(item).name) <==> DottedPath(item.path)
  {
    DotsOfRel(item.path);
    if item.isDir {
      DotsSplit(Rel(item.path), "");
      assert Rel(item.path) + "/" + "" == Rel(item.path) + "/";
      assert !Dots("");
    } else {
      assert Rel(item.path) + "" == Rel(item.path);
    }
  }

  // ---------- what is where ----------

  /** What is under a path: nothing, a directory, or a file with its bytes. */
  datatype Found = Nothing | Directory | Content(data: Bytes)

  function At(node: Node, path: seq<string>): Found {
    match node
    case File(data) => if path == [] then Content(data) else Nothing
    case Dir(kids) =>
      if path == [] then Directory
      else if path[0] in kids then At(kids[path[0]], path[1..])
      else Nothing
  }

  lemma AtKid(kids: map<string, Node>, name: string, path: seq<string>)
    requires name in kids
    ensures At(Dir(kids), [name] + path) == At(kids[name], path)
  {
    assert ([name] + path)[1..] == path;
  }

  lemma AtRoot(node: Node)
    ensures At(node, []) != Nothing
    ensures node.Dir? <==> At(node, []) == Directory
  {
  }

  /** Trees are equal when the same is under every path. */
  lemma {:induction false} SameEverywhere(a: Node, b: Node)
    requires forall path :: At(a, path) == At(b, path)
    ensures a == b
    decreases a
  {
    assert At(a, []) == At(b, []);
    if a.Dir? {
      forall name ensures name in a.kids <==> name in b.kids {
        assert At(a, [name]) == At(b, [name]);
        if name in a.kids { AtKid(a.kids, name, []); AtRoot(a.kids[name]); }
        if name in b.kids { AtKid(b.kids, name, []); AtRoot(b.kids[name]); }
        assert [name] + [] == [name];
      }
      forall name | name in a.kids ensures a.kids[name] == b.kids[name] {
        forall path ensures At(a.kids[name], path) == At(b.kids[name], path) {
          AtKid(a.kids, name, path);
          AtKid(b.kids, name, path);
        }
        SameEverywhere(a.kids[name], b.kids[name]);
      }
      assert a.kids == b.kids;
    }
  }

  /** Above what is there, there are directories. */
  lemma {:induction false} DirectoriesAbove(node: Node, path: seq<string>, above: seq<string>)
    requires At(node, path) != Nothing && above < path
    ensures At(node, above) == Directory
  {
    if above != [] {
      assert above[0] == path[0] && above[1..] < path[1..];
      DirectoriesAbove(node.kids[path[0]], path[1..], above[1..]);
    }
  }

  /** There is a file at the path or above it. */
  ghost predicate FileAbove(node: Node, path: seq<string>) {
    exists q :: q <= path && At(node, q).Content?
  }

  /** All above the path are directories. */
  ghost predicate DirsAbove(node: Node, path: seq<string>) {
    forall q :: q < path ==> At(node, q) == Directory
  }

  lemma NothingBelowFile(node: Node, path: seq<string>)
    requires node.File? && path != []
    ensures !DirsAbove(node, path)
  {
    var root: seq<string> := [];
    assert root < path && At(node, root) != Directory;
  }

  lemma FileInTheWay(node: Node, path: seq<string>)
    requires node.File?
    ensures FileAbove(node, path)
  {
    var root: seq<string> := [];
    assert root <= path && At(node, root).Content?;
  }

  /** Making a directory with its parents succeeds if and only if no file is in the way; then the path
      and all above it are directories, and nothing else has changed. */
  lemma {:induction false} MkdirAllExact(node: Node, path: seq<string>)
    ensures MkdirAll(node, path).Success? <==> !FileAbove(node, path)
    ensures MkdirAll(node, path).Success? ==>
              forall p :: At(MkdirAll(node, path).value, p) == if p <= path then Directory else At(node, p)
    decreases |path|
  {
    if node.File? {
      FileInTheWay(node, path);
    } else if path == [] {
      assert forall q {:trigger At(node, q)} :: q <= path ==> q == [];
    } else {
      var name, kids := path[0], node.kids;
      var kid := if name in kids then kids[name] else Dir(map[]);
      MkdirAllExact(kid, path[1..]);
      MkdirBelow(kids, name, kid, path);
      if MkdirAll(node, path).Success? {
        var made := MkdirAll(kid, path[1..]).value;
        forall p ensures At(Dir(kids[name := made]), p) == if p <= path then Directory else At(node, p) {
          if p != [] {
            assert p <= path <==> p[0] == name && p[1..] <= path[1..];
            if p[0] == name && name !in kids && !(p <= path) { assert At(Dir(map[]), p[1..]) == Nothing by { assert p[1..] != []; } }
          }
        }
      }
    }
  }

  /** A file is in the way if and only if one is in the way below. */
  lemma MkdirBelow(kids: map<string, Node>, name: string, kid: Node, path: seq<string>)
    requires path != [] && path[0] == name && kid == (if name in kids then kids[name] else Dir(map[]))
    ensures FileAbove(Dir(kids), path) <==> FileAbove(kid, path[1..])
  {
    if FileAbove(Dir(kids), path) {
      var q :| q <= path && At(Dir(kids), q).Content?;
      assert q[0] == name && q[1..] <= path[1..] && At(kid, q[1..]).Content?;
    }
    if FileAbove(kid, path[1..]) {
      var q :| q <= path[1..] && At(kid, q).Content?;
      AtEmpty(q);
      AtKid(kids, name, q);
      assert [name] + q <= path by { assert path == [name] + path[1..]; }
    }
  }

  lemma AtEmpty(path: seq<string>)
    ensures At(Dir(map[]), path) == if path == [] then Directory else Nothing
  {
  }

  /** Writing a file succeeds if and only if all above it are directories and it is not one itself; then
      it holds the bytes, whatever was there before, and nothing else has changed. */
  lemma {:induction false} WriteFileExact(node: Node, path: seq<string>, data: Bytes)
    ensures WriteFile(node, path, data).Success? <==>
              path != [] && DirsAbove(node, path) && At(node, path) != Directory
    ensures WriteFile(node, path, data).Success? ==>
              forall p :: At(WriteFile(node, path, data).value, p) == if p == path then Content(data) else At(node, p)
    decreases |path|
  {
    if path == [] {
    } else if node.File? {
      NothingBelowFile(node, path);
    } else {
      var name, kids := path[0], node.kids;
      assert path == [name] + path[1..];
      if |path| == 1 {
        WriteHere(kids, name, data);
        assert forall q {:trigger At(node, q)} :: q < path ==> q == [];
      } else if name !in kids {
        assert [name] < path && At(node, [name]) == Nothing;
      } else {
        WriteFileExact(kids[name], path[1..], data);
        WriteBelow(kids, name, path);
        AtKid(kids, name, path[1..]);
        assert node == Dir(kids);
        if WriteFile(node, path, data).Success? {
          var written := WriteFile(kids[name], path[1..], data).value;
          forall p ensures At(Dir(kids[name := written]), p) == if p == path then Content(data) else At(node, p) {
            if p != [] {
              assert p == [p[0]] + p[1..];
              assert p == path <==> p[0] == name && p[1..] == path[1..];
            }
          }
        }
      }
    }
  }

  lemma WriteHere(kids: map<string, Node>, name: string, data: Bytes)
    ensures At(Dir(kids), [name]) == Directory <==> name in kids && kids[name].Dir?
    ensures !(name in kids && kids[name].Dir?) ==>
              forall p :: At(Dir(kids[name := File(data)]), p) == if p == [name] then Content(data) else At(Dir(kids), p)
  {
    if !(name in kids && kids[name].Dir?) {
      forall p ensures At(Dir(kids[name := File(data)]), p) == if p == [name] then Content(data) else At(Dir(kids), p) {
        if p != [] {
          assert p == [p[0]] + p[1..];
          if p[0] == name && p[1..] == [] { assert p == [name]; }
        }
      }
    }
  }

  lemma WriteBelow(kids: map<string, Node>, name: string, path: seq<string>)
    requires |path| > 1 && path[0] == name && name in kids
    ensures DirsAbove(Dir(kids), path) <==> DirsAbove(kids[name], path[1..])
  {
    assert path == [name] + path[1..];
    if !DirsAbove(Dir(kids), path) {
      var q :| q < path && At(Dir(kids), q) != Directory;
      assert q != [] && q[0] == name && q[1..] < path[1..] && At(kids[name], q[1..]) != Directory;
    }
    if !DirsAbove(kids[name], path[1..]) {
      var q :| q < path[1..] && At(kids[name], q) != Directory;
      AtKid(kids, name, q);
      assert [name] + q < path;
    }
  }

  // ---------- placing one walked entry ----------

  function ThingOf(item: Item): Found {
    if item.isDir then Directory else Content(item.data)
  }

  /** One is a file and the other a directory. */
  predicate Clash(a: Found, b: Found) {
    (a.Content? && b == Directory) || (a == Directory && b.Content?)
  }

  /** Placing a walked entry below directories succeeds unless it clashes with what is there, and changes
      what is under its path and nothing else; when it fails it changes nothing. */
  lemma PlaceExact(node: Node, item: Item)
    requires item.path != [] && ValidPath(item.path)
    requires DirsAbove(node, item.path)
    ensures var r := Place(node, EntryOf(item));
      && (r.1 <==> !Clash(At(node, item.path), ThingOf(item)))
      && (if r.1 then forall p :: At(r.0, p) == if p == item.path then ThingOf(item) else At(node, p) else r.0 == node)
  {
    var path := item.path;
    ComponentsOfRel(path);
    ComponentsOfParent(path);
    assert Rel(path) + "" == Rel(path);
    if item.isDir {
      MkdirAllExact(node, path);
      assert forall q {:trigger At(node, q)} :: q <= path ==> q < path || q == path;
    } else {
      var parent := path[..|path| - 1];
      MkdirAllExact(node, parent);
      assert forall q {:trigger At(node, q)} :: q <= parent ==> q < path;
      var made := MkdirAll(node, parent).value;
      assert forall p :: At(made, p) == At(node, p);
      SameEverywhere(made, node);
      WriteFileExact(node, path, item.data);
    }
  }

  /** The directories that an entry needs. */
  function DirsOf(e: Entry): seq<string> {
    Components(if e.isDir then e.name else DirPart(e.name))
  }

  /** All above the path are directories, once `dirs` are. */
  ghost predicate Reachable(node: Node, dirs: seq<string>, path: seq<string>) {
    forall q :: q < path ==> q <= dirs || At(node, q) == Directory
  }

  /** Placing any entry, whatever its name.  With a file among the directories it needs nothing happens.
      Otherwise these are directories afterwards; a file is then written unless its path is empty, is
      a directory, or is below something else; and nothing else has changed. */
  lemma PlaceAnyExact(node: Node, e: Entry)
    ensures var r, dirs, path := Place(node, e), DirsOf(e), Components(e.name);
      if FileAbove(node, dirs) then r == (node, false)
      else
        && (r.1 <==> e.isDir || (path != [] && !(path <= dirs) && At(node, path) != Directory && Reachable(node, dirs, path)))
        && forall p :: At(r.0, p) == if r.1 && !e.isDir && p == path then Content(e.data)
                                     else if p <= dirs then Directory else At(node, p)
  {
    var dirs, path := DirsOf(e), Components(e.name);
    MkdirAllExact(node, dirs);
    if MkdirAll(node, dirs).Success? && !e.isDir {
      var made := MkdirAll(node, dirs).value;
      WriteFileExact(made, path, e.data);
      ReachableMade(node, made, dirs, path);
    }
  }

  lemma ReachableMade(node: Node, made: Node, dirs: seq<string>, path: seq<string>)
    requires forall p :: At(made, p) == if p <= dirs then Directory else At(node, p)
    ensures DirsAbove(made, path) <==> Reachable(node, dirs, path)
  {
    if !DirsAbove(made, path) {
      var q :| q < path && At(made, q) != Directory;
      assert !(q <= dirs) && At(node, q) != Directory;
    }
    if Reachable(node, dirs, path) {
      forall q | q < path ensures At(made, q) == Directory {
        assert q <= dirs || At(node, q) == Directory;
      }
    }
    if !Reachable(node, dirs, path) {
      var q :| q < path && !(q <= dirs) && At(node, q) != Directory;
      assert At(made, q) == At(node, q);
    }
  }

  // ---------- what a walk lists ----------

  /** The order in which paths are walked: a directory before what is below it, and its entries in
      lexical order, each with all that is below it. */
  predicate Before(p: seq<string>, q: seq<string>) {
    q != [] && (p == [] || (p[0] != q[0] && LessEq(p[0], q[0])) || (p[0] == q[0] && Before(p[1..], q[1..])))
  }

  lemma {:induction false} BeforeIsStrict(p: seq<string>, q: seq<string>)
    requires Before(p, q)
    ensures p != q && !Before(q, p)
  {
    if p != [] {
      if p[0] == q[0] {
        BeforeIsStrict(p[1..], q[1..]);
      } else if LessEq(q[0], p[0]) {
        LessEqAntisymmetric(p[0], q[0]);
      }
    }
  }

  lemma {:induction false} PrefixIsBefore(p: seq<string>, q: seq<string>)
    requires p < q
    ensures Before(p, q)
  {
    if p != [] { PrefixIsBefore(p[1..], q[1..]); }
  }

  /** The items say what is under their paths, in order. */
  predicate Lists(dir: Node, items: seq<Item>) {
    && (forall k :: 0 <= k < |items| ==> items[k].path != [] && At(dir, items[k].path) == ThingOf(items[k]))
    && (forall j, k :: 0 <= j < k < |items| ==> Before(items[j].path, items[k].path))
  }

  ghost predicate Listed(items: seq<Item>, path: seq<string>) {
    exists k :: 0 <= k < |items| && items[k].path == path
  }

  /** A walk lists exactly what is in the tree: every path below the root once, with what is under it, a
      directory before its contents, and the entries of a directory in lexical order. */
  lemma {:induction false} WalkExact(dir: Node)
    requires dir.Dir?
    ensures Lists(dir, Walk(dir))
    ensures forall path :: Listed(Walk(dir), path) <==> path != [] && At(dir, path) != Nothing
    decreases dir, 1, 0
  {
    WalkKidsExact(dir, Sorted(dir.kids.Keys));
  }

  predicate Increasing(names: seq<string>) {
    forall i, j :: 0 <= i < j < |names| ==> names[i] != names[j] && LessEq(names[i], names[j])
  }

  lemma {:induction false} WalkKidsExact(dir: Node, names: seq<string>)
    requires dir.Dir? && (forall x :: x in names ==> x in dir.kids) && Increasing(names)
    ensures Lists(dir, WalkKids(dir, names))
    ensures forall path :: Listed(WalkKids(dir, names), path) <==> path != [] && path[0] in names && At(dir, path) != Nothing
    decreases dir, 0, |names|
  {
    if names != [] {
      WalkOneExact(dir, names[0]);
      WalkKidsExact(dir, names[1..]);
      JoinLists(dir, names, WalkOne(dir, names[0]), WalkKids(dir, names[1..]));
    }
  }

  lemma JoinLists(dir: Node, names: seq<string>, first: seq<Item>, rest: seq<Item>)
    requires names != [] && Increasing(names) && Lists(dir, first) && Lists(dir, rest)
    requires forall path :: Listed(first, path) <==> path != [] && path[0] == names[0] && At(dir, path) != Nothing
    requires forall path :: Listed(rest, path) <==> path != [] && path[0] in names[1..] && At(dir, path) != Nothing
    ensures Lists(dir, first + rest)
    ensures forall path :: Listed(first + rest, path) <==> path != [] && path[0] in names && At(dir, path) != Nothing
  {
    var all := first + rest;
    forall j, k | 0 <= j < k < |all| ensures Before(all[j].path, all[k].path) {
      if j < |first| && k >= |first| {
        assert all[j] == first[j] && all[k] == rest[k - |first|];
        assert Listed(first, all[j].path) && Listed(rest, all[k].path);
        var n :| 0 <= n < |names[1..]| && names[1..][n] == all[k].path[0];
        assert names[0] != names[n + 1] && LessEq(names[0], names[n + 1]);
      }
    }
    forall path ensures Listed(all, path) <==> Listed(first, path) || Listed(rest, path) {
      if k :| 0 <= k < |all| && all[k].path == path {
        if k < |first| { assert first[k].path == path; } else { assert rest[k - |first|].path == path; }
      }
      if k :| 0 <= k < |first| && first[k].path == path { assert all[k].path == path; }
      if k :| 0 <= k < |rest| && rest[k].path == path { assert all[|first| + k].path == path; }
    }
    assert forall x :: x in names <==> x == names[0] || x in names[1..];
  }

  lemma {:induction false} WalkOneExact(dir: Node, name: string)
    requires dir.Dir? && name in dir.kids
    ensures Lists(dir, WalkOne(dir, name))
    ensures forall path :: Listed(WalkOne(dir, name), path) <==> path != [] && path[0] == name && At(dir, path) != Nothing
    decreases dir, 0, 0
  {
    var kid := dir.kids[name];
    if kid.Dir? {
      WalkExact(kid);
      DirListed(dir, name, Walk(kid));
    } else {
      var items := WalkOne(dir, name);
      assert items[0].path == [name];
      forall path ensures Listed(items, path) <==> path != [] && path[0] == name && At(dir, path) != Nothing {
        if path != [] && path[0] == name && path[1..] == [] { assert path == [name]; }
      }
    }
  }

  lemma DirListed(dir: Node, name: string, below: seq<Item>)
    requires dir.Dir? && name in dir.kids && dir.kids[name].Dir? && Lists(dir.kids[name], below)
    requires forall path :: Listed(below, path) <==> path != [] && At(dir.kids[name], path) != Nothing
    ensures var items := [Item([name], true, [])] + Prepend([name], below);
      && Lists(dir, items)
      && forall path :: Listed(items, path) <==> path != [] && path[0] == name && At(dir, path) != Nothing
  {
    var items := [Item([name], true, [])] + Prepend([name], below);
    DirLists(dir, name, below, items);
    forall path ensures Listed(items, path) <==> path != [] && path[0] == name && At(dir, path) != Nothing {
      if Listed(items, path) {
        var k :| 0 <= k < |items| && items[k].path == path;
        assert At(dir, path) == ThingOf(items[k]);
      }
      if path != [] && path[0] == name && At(dir, path) != Nothing {
        BelowListed(dir, name, below, items, path);
      }
    }
  }

  lemma BelowListed(dir: Node, name: string, below: seq<Item>, items: seq<Item>, path: seq<string>)
    requires dir.Dir? && name in dir.kids && dir.kids[name].Dir? && |items| == |below| + 1
    requires items[0].path == [name] && forall k :: 0 < k < |items| ==> items[k].path == [name] + below[k - 1].path
    requires path != [] && path[0] == name && At(dir, path) != Nothing
    requires path[1..] != [] && At(dir.kids[name], path[1..]) != Nothing ==> Listed(below, path[1..])
    ensures Listed(items, path)
  {
    assert path == [name] + path[1..];
    if path[1..] == [] {
      assert items[0].path == path;
    } else {
      var k :| 0 <= k < |below| && below[k].path == path[1..];
      assert items[k + 1].path == [name] + below[k].path;
    }
  }

  lemma DirLists(dir: Node, name: string, below: seq<Item>, items: seq<Item>)
    requires dir.Dir? && name in dir.kids && dir.kids[name].Dir? && Lists(dir.kids[name], below)
    requires items == [Item([name], true, [])] + Prepend([name], below)
    ensures forall k :: 0 < k < |items| ==> items[k] == below[k - 1].(path := [name] + below[k - 1].path)
    ensures Lists(dir, items)
  {
    forall k | 0 < k < |items| ensures items[k] == below[k - 1].(path := [name] + below[k - 1].path) {
      assert items[k] == Prepend([name], below)[k - 1];
    }
    forall k | 0 <= k < |items| ensures items[k].path != [] && At(dir, items[k].path) == ThingOf(items[k]) {
      if k > 0 { AtKid(dir.kids, name, below[k - 1].path); }
    }
    forall j, k | 0 <= j < k < |items| ensures Before(items[j].path, items[k].path) {
      assert items[k].path[1..] == below[k - 1].path;
      assert j > 0 ==> items[j].path[1..] == below[j - 1].path;
    }
  }

  // ---------- unpacking over what is there ----------

  /** What is under a path after the first `m` items were placed over `dst`. */
  function Expected(dst: Node, items: seq<Item>, m: nat, path: seq<string>): Found
    requires m <= |items|
  {
    if m == 0 then At(dst, path)
    else if items[m - 1].path == path then ThingOf(items[m - 1])
    else Expected(dst, items, m - 1, path)
  }

  ghost predicate Holds(node: Node, dst: Node, items: seq<Item>, m: nat)
    requires m <= |items|
  {
    forall path :: At(node, path) == Expected(dst, items, m, path)
  }

  lemma {:induction false} ExpectedIs(dir: Node, dst: Node, items: seq<Item>, m: nat, path: seq<string>)
    requires m <= |items| && Lists(dir, items)
    ensures Expected(dst, items, m, path) == if Listed(items[..m], path) then At(dir, path) else At(dst, path)
  {
    if m > 0 {
      ExpectedIs(dir, dst, items, m - 1, path);
      if items[m - 1].path == path {
        assert items[..m][m - 1].path == path;
      } else {
        if k :| 0 <= k < |items[..m]| && items[..m][k].path == path { assert items[..m - 1][k].path == path; }
        if Listed(items[..m - 1], path) {
          var k :| 0 <= k < |items[..m - 1]| && items[..m - 1][k].path == path;
          assert items[..m][k].path == path;
        }
      }
    }
  }

  /** What a walk lists under a path above item `m` comes before item `m`, and item `m` only then. */
  lemma AboveIsListed(dir: Node, items: seq<Item>, m: nat, q: seq<string>)
    requires m < |items| && Lists(dir, items) && q < items[m].path && q != []
    requires forall path :: Listed(items, path) <==> path != [] && At(dir, path) != Nothing
    ensures Listed(items[..m], q) && At(dir, q) == Directory
  {
    DirectoriesAbove(dir, items[m].path, q);
    assert Listed(items, q);
    var k :| 0 <= k < |items| && items[k].path == q;
    PrefixIsBefore(q, items[m].path);
    if k > m {
      BeforeIsStrict(items[m].path, items[k].path);
    } else {
      assert k != m && items[..m][k].path == q;
    }
  }

  lemma NotYetListed(dir: Node, items: seq<Item>, m: nat)
    requires m < |items| && Lists(dir, items)
    ensures !Listed(items[..m], items[m].path)
  {
    if k :| 0 <= k < |items[..m]| && items[..m][k].path == items[m].path {
      BeforeIsStrict(items[k].path, items[m].path);
    }
  }

  /** An item that cannot be placed: a name in its path contains "..", or it clashes with what is there. */
  predicate Bad(dst: Node, item: Item) {
    DottedPath(item.path) || Clash(At(dst, item.path), ThingOf(item))
  }

  /** The items are a walk of `dir`: all of it, in order, with names that can be. */
  ghost predicate IsWalk(dir: Node, items: seq<Item>) {
    && Lists(dir, items) && (forall k :: 0 <= k < |items| ==> ValidPath(items[k].path))
    && forall path :: Listed(items, path) <==> path != [] && At(dir, path) != Nothing
  }

  lemma PlaceNext(dir: Node, dst: Node, items: seq<Item>, m: nat, node: Node)
    requires dst.Dir? && m < |items| && IsWalk(dir, items)
    requires Holds(node, dst, items, m)
    ensures var r := Place(node, EntryOf(items[m]));
      && (r.1 <==> !Clash(At(dst, items[m].path), ThingOf(items[m])))
      && (if r.1 then Holds(r.0, dst, items, m + 1) else r.0 == node)
  {
    var item := items[m];
    forall q | q < item.path ensures At(node, q) == Directory {
      ExpectedIs(dir, dst, items, m, q);
      if q == [] {
        assert !Listed(items[..m], []);
      } else {
        AboveIsListed(dir, items, m, q);
      }
    }
    ExpectedIs(dir, dst, items, m, item.path);
    NotYetListed(dir, items, m);
    PlaceExact(node, item);
  }

  lemma EntriesFrom(items: seq<Item>, m: nat)
    requires m < |items|
    ensures var entries := Entries(items[m..]); entries[0] == EntryOf(items[m]) && entries[1..] == Entries(items[m + 1..])
  {
    assert items[m..][1..] == items[m + 1..];
  }

  /** Unpacking meets item `m`: a bad one ends it, and any other is placed. */
  lemma UnpackNext(dir: Node, dst: Node, items: seq<Item>, m: nat, node: Node)
    requires dst.Dir? && m < |items| && IsWalk(dir, items) && Holds(node, dst, items, m)
    ensures var next := Place(node, EntryOf(items[m])).0;
      if Bad(dst, items[m]) then Unpack(node, Entries(items[m..])) == (node, false)
      else Unpack(node, Entries(items[m..])) == Unpack(next, Entries(items[m + 1..])) && Holds(next, dst, items, m + 1)
  {
    EntriesFrom(items, m);
    DotsOfEntry(items[m]);
    PlaceNext(dir, dst, items, m, node);
  }

  /** Unpacking from item `m` on: it stops at the first bad item, and leaves what was placed before. */
  lemma {:induction false} UnpackFrom(dir: Node, dst: Node, items: seq<Item>, m: nat, node: Node) returns (stop: nat)
    requires dst.Dir? && m <= |items| && IsWalk(dir, items) && Holds(node, dst, items, m)
    ensures m <= stop <= |items| && forall k :: m <= k < stop ==> !Bad(dst, items[k])
    ensures stop < |items| ==> Bad(dst, items[stop])
    ensures var r := Unpack(node, Entries(items[m..])); (r.1 <==> stop == |items|) && Holds(r.0, dst, items, stop)
    decreases |items| - m
  {
    if m == |items| {
      stop := m;
    } else {
      UnpackNext(dir, dst, items, m, node);
      if Bad(dst, items[m]) {
        stop := m;
      } else {
        stop := UnpackFrom(dir, dst, items, m + 1, Place(node, EntryOf(items[m])).0);
      }
    }
  }

  /** Every walked path is non-empty, made of valid names, and dotted only when the tree is. */
  lemma {:induction false} WalkPathsValid(dir: Node)
    requires dir.Dir? && WellNamed(dir)
    ensures forall k :: 0 <= k < |Walk(dir)| ==>
      && Walk(dir)[k].path != [] && ValidPath(Walk(dir)[k].path)
      && (DottedPath(Walk(dir)[k].path) ==> DottedTree(dir))
    decreases dir, 1, 0
  {
    KidPathsValid(dir, Sorted(dir.kids.Keys));
  }

  lemma {:induction false} KidPathsValid(dir: Node, names: seq<string>)
    requires dir.Dir? && WellNamed(dir) && forall x :: x in names ==> x in dir.kids
    ensures forall k :: 0 <= k < |WalkKids(dir, names)| ==> PathFits(dir, WalkKids(dir, names)[k])
    decreases dir, 0, |names|
  {
    if names != [] {
      OneKidPathsValid(dir, names[0]);
      KidPathsValid(dir, names[1..]);
    }
  }

  predicate PathFits(dir: Node, item: Item) {
    item.path != [] && ValidPath(item.path) && (DottedPath(item.path) ==> DottedTree(dir))
  }

  lemma {:induction false} OneKidPathsValid(dir: Node, name: string)
    requires dir.Dir? && WellNamed(dir) && name in dir.kids
    ensures forall k :: 0 <= k < |WalkOne(dir, name)| ==> PathFits(dir, WalkOne(dir, name)[k])
    decreases dir, 0, 0
  {
    var items, kid := WalkOne(dir, name), dir.kids[name];
    if kid.Dir? { WalkPathsValid(kid); }
    forall k | 0 <= k < |items| ensures PathFits(dir, items[k]) {
      DottedCons(items[k].path);
      if k > 0 {
        var item := Walk(kid)[k - 1];
        assert items[k].path == [name] + item.path;
        assert items[k].path[1..] == item.path;
        assert ValidPath(item.path);
      }
    }
  }

  /** A dotted name anywhere in the tree shows in some walked path. */
  lemma {:induction false} DottedTreeShows(dir: Node)
    requires dir.Dir? && DottedTree(dir)
    ensures exists k :: 0 <= k < |Walk(dir)| && DottedPath(Walk(dir)[k].path)
    decreases dir
  {
    var name :| name in dir.kids && (Dots(name) || DottedTree(dir.kids[name]));
    if !Dots(name) { DottedTreeShows(dir.kids[name]); }
    var k := DottedBelow(dir, name);
    var j := WalkContains(dir, Sorted(dir.kids.Keys), name, k);
    assert DottedPath(Walk(dir)[j].path);
  }

  lemma DottedBelow(dir: Node, name: string) returns (k: nat)
    requires dir.Dir? && name in dir.kids
    requires Dots(name)
             || (dir.kids[name].Dir? && exists j :: 0 <= j < |Walk(dir.kids[name])| && DottedPath(Walk(dir.kids[name])[j].path))
    ensures k < |WalkOne(dir, name)| && DottedPath(WalkOne(dir, name)[k].path)
  {
    var one := WalkOne(dir, name);
    k := 0;
    if Dots(name) {
      assert one[0].path == [name] && Dots(one[0].path[0]);
    } else {
      var below := Walk(dir.kids[name]);
      var j :| 0 <= j < |below| && DottedPath(below[j].path);
      k := j + 1;
      assert one[k] == Prepend([name], below)[j];
      assert one[k].path[1..] == below[j].path;
      DottedCons(one[k].path);
    }
  }

  lemma {:induction false} WalkContains(dir: Node, names: seq<string>, name: string, k: nat) returns (j: nat)
    requires dir.Dir? && (forall x :: x in names ==> x in dir.kids) && name in names
    requires k < |WalkOne(dir, name)|
    ensures j < |WalkKids(dir, names)| && WalkKids(dir, names)[j] == WalkOne(dir, name)[k]
    decreases |names|
  {
    var first, rest := WalkOne(dir, names[0]), WalkKids(dir, names[1..]);
    assert WalkKids(dir, names) == first + rest;
    if name == names[0] {
      j := k;
    } else {
      j := WalkContains(dir, names[1..], name, k);
      j := |first| + j;
    }
  }

  // ---------- main results ----------

  /** The tree cannot be unpacked over `dst`: one has a file where the other has a directory. */
  ghost predicate Clashes(dst: Node, dir: Node) {
    exists path :: Clash(At(dst, path), At(dir, path))
  }

  lemma BadExists(dst: Node, dir: Node)
    requires dst.Dir? && dir.Dir? && (DottedTree(dir) || Clashes(dst, dir))
    ensures exists k :: 0 <= k < |Walk(dir)| && Bad(dst, Walk(dir)[k])
  {
    var items := Walk(dir);
    WalkExact(dir);
    if DottedTree(dir) {
      DottedTreeShows(dir);
      var k :| 0 <= k < |items| && DottedPath(items[k].path);
      assert Bad(dst, items[k]);
    } else {
      var path :| Clash(At(dst, path), At(dir, path));
      assert Listed(items, path);
      var k :| 0 <= k < |items| && items[k].path == path;
      assert Bad(dst, items[k]);
    }
  }

  /** Unpacking a walked tree over an existing directory succeeds if and only if no name contains ".." and
      no path is a file in one and a directory in the other.  Then every file of the tree holds its
      bytes, every directory of the tree is one, and every path that the tree does not have is as
      before. */
  lemma UnpackOver(dst: Node, dir: Node)
    requires dst.Dir? && dir.Dir? && WellNamed(dir)
    ensures var r := Unpack(dst, ZipDir(dir));
      && (r.1 <==> !DottedTree(dir) && !Clashes(dst, dir))
      && (r.1 ==> forall path :: At(r.0, path) == if At(dir, path) == Nothing then At(dst, path) else At(dir, path))
  {
    var items := Walk(dir);
    var stop := UnpackLeaves(dst, dir);
    WalkExact(dir);
    WalkPathsValid(dir);
    if DottedTree(dir) || Clashes(dst, dir) { BadExists(dst, dir); }
    if stop < |items| {
      assert DottedTree(dir) || Clash(At(dst, items[stop].path), At(dir, items[stop].path));
    } else {
      assert items[..stop] == items;
    }
  }

  /** Wherever unpacking stops, it leaves exactly what the entries before that place: the first entry with
      a dotted name, or that clashes with what was there, ends it. */
  lemma UnpackLeaves(dst: Node, dir: Node) returns (stop: nat)
    requires dst.Dir? && dir.Dir? && WellNamed(dir)
    ensures stop <= |Walk(dir)| && (forall k :: 0 <= k < stop ==> !Bad(dst, Walk(dir)[k]))
    ensures stop < |Walk(dir)| ==> Bad(dst, Walk(dir)[stop])
    ensures var r := Unpack(dst, ZipDir(dir));
      && (r.1 <==> stop == |Walk(dir)|)
      && forall path :: At(r.0, path) == if Listed(Walk(dir)[..stop], path) then At(dir, path) else At(dst, path)
  {
    var items := Walk(dir);
    WalkExact(dir);
    WalkPathsValid(dir);
    assert items[0..] == items;
    stop := UnpackFrom(dir, dst, items, 0, dst);
    var r := Unpack(dst, ZipDir(dir)).0;
    forall path ensures At(r, path) == if Listed(items[..stop], path) then At(dir, path) else At(dst, path) {
      ExpectedIs(dir, dst, items, stop, path);
    }
  }

  /** Any list of entries, also one that no walk has made: an unpacking that reaches a dotted name, or an
      entry that cannot be placed, leaves what the entries before it left, and the directories made
      for the failing one. */
  lemma {:induction false} UnpackStops(node: Node, entries: seq<Entry>, k: nat)
    requires k < |entries| && Unpack(node, entries[..k]).1
    ensures var before := Unpack(node, entries[..k]).0;
      && (Dots(entries[k].name) ==> Unpack(node, entries) == (before, false))
      && (!Dots(entries[k].name) && !Place(before, entries[k]).1 ==> Unpack(node, entries) == Place(before, entries[k]))
    decreases |entries|
  {
    if k > 0 {
      assert entries[..k][0] == entries[0] && entries[..k][1..] == entries[1..][..k - 1];
      UnpackStops(Place(node, entries[0]).0, entries[1..], k - 1);
    }
  }

  /** Directory round trip: unpacking the walked entries of a tree into an empty directory rebuilds
      the tree, empty directories included, when no name contains ".."; it fails exactly when
      some name does. */
  lemma RoundTrip(dir: Node)
    requires dir.Dir? && WellNamed(dir)
    ensures !DottedTree(dir) ==> Unpack(Dir(map[]), ZipDir(dir)) == (dir, true)
    ensures Unpack(Dir(map[]), ZipDir(dir)).1 <==> !DottedTree(dir)
  {
    UnpackOver(Dir(map[]), dir);
    if path :| Clash(At(Dir(map[]), path), At(dir, path)) { AtEmpty(path); }
    if !DottedTree(dir) {
      var r := Unpack(Dir(map[]), ZipDir(dir)).0;
      forall path ensures At(r, path) == At(dir, path) { AtEmpty(path); }
      SameEverywhere(r, dir);
    }
  }
}
