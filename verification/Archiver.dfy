/** The archive built and unpacked step by step: a walk callback appends headers to a zip writer,
    and an unpack loop makes directories and files in a destination. */
module Archiver {
  import opened Chunking
  import opened Archive

  class ZipWriter {
    var entries: seq<Entry>

    constructor ()
      ensures entries == []
    {
      entries := [];
    }

    /** The walk callback: one header, and the file's bytes. */
    method Add(path: seq<string>, node: Node)
      modifies this
      ensures entries == old(entries) + [EntryOf(if node.Dir? then Item(path, true, []) else Item(path, false, node.data))]
    {
      var name, data := Rel(path), [];
      if node.Dir? { name := name + "/"; } else { data := node.data; }
      assert node.File? ==> Rel(path) + "" == Rel(path);
      entries := entries + [Entry(name, node.Dir?, data)];
    }

    /** filepath.WalkDir below `dir`, whose own path is `path`. */
    method WalkDir(dir: Node, path: seq<string>)
      requires dir.Dir?
      modifies this
      ensures entries == old(entries) + Entries(Prepend(path, Walk(dir)))
      decreases dir, 1
    {
      var names := Sorted(dir.kids.Keys);
      var i := 0;
      while i < |names|
        invariant 0 <= i <= |names|
        invariant entries == old(entries) + EntriesOf(dir, names[..i], path)
      {
        ghost var before, one := EntriesOf(dir, names[..i], path), Entries(Prepend(path, WalkOne(dir, names[i])));
        Visit(dir, names[i], path);
        WalkOneMore(dir, names[..i], names[i], path);
        Associative(old(entries), before, one);
        TakeOneMore(names, i);
        i := i + 1;
      }
      assert names[..i] == names;
    }

    /** One directory entry: the callback, and what lies below it. */
    method Visit(dir: Node, name: string, path: seq<string>)
      requires dir.Dir? && name in dir.kids
      modifies this
      ensures entries == old(entries) + Entries(Prepend(path, WalkOne(dir, name)))
      decreases dir, 0
    {
      var kid := dir.kids[name];
      ghost var before := entries;
      Add(path + [name], kid);
      ghost var header := entries[|before|..];
      ghost var below := [];
      if kid.Dir? {
        below := Entries(Prepend(path + [name], Walk(kid)));
        WalkDir(kid, path + [name]);
      }
      OneKidEntries(dir, name, path);
      Associative(before, header, below);
    }
  }

  lemma Associative(a: seq<Entry>, b: seq<Entry>, c: seq<Entry>)
    ensures a + b + c == a + (b + c)
  {
  }

  lemma TakeOneMore(names: seq<string>, i: nat)
    requires i < |names|
    ensures names[..i + 1] == names[..i] + [names[i]]
  {
  }

  /** The entries for the kids of `dir` named in `names`. */
  function EntriesOf(dir: Node, names: seq<string>, path: seq<string>): seq<Entry>
    requires dir.Dir? && forall x :: x in names ==> x in dir.kids
  {
    Entries(Prepend(path, WalkKids(dir, names)))
  }

  lemma WalkOneMore(dir: Node, names: seq<string>, name: string, path: seq<string>)
    requires dir.Dir? && (forall x :: x in names ==> x in dir.kids) && name in dir.kids
    ensures forall x :: x in names + [name] ==> x in dir.kids
    ensures EntriesOf(dir, names + [name], path) == EntriesOf(dir, names, path) + Entries(Prepend(path, WalkOne(dir, name)))
  {
    WalkSnoc(dir, names, name);
    EntriesConcat(path, WalkKids(dir, names), WalkOne(dir, name));
  }

  lemma {:induction false} WalkSnoc(dir: Node, names: seq<string>, name: string)
    requires dir.Dir? && (forall x :: x in names ==> x in dir.kids) && name in dir.kids
    ensures forall x :: x in names + [name] ==> x in dir.kids
    ensures WalkKids(dir, names + [name]) == WalkKids(dir, names) + WalkOne(dir, name)
    decreases |names|
  {
    var all := names + [name];
    if names == [] {
      assert all[1..] == [] && WalkKids(dir, all[1..]) == [];
    } else {
      assert all[0] == names[0] && all[1..] == names[1..] + [name];
      WalkSnoc(dir, names[1..], name);
    }
  }

  lemma EntriesConcat(path: seq<string>, a: seq<Item>, b: seq<Item>)
    ensures Entries(Prepend(path, a + b)) == Entries(Prepend(path, a)) + Entries(Prepend(path, b))
  {
  }

  lemma OneKidEntries(dir: Node, name: string, path: seq<string>)
    requires dir.Dir? && name in dir.kids
    ensures var kid := dir.kids[name];
      Entries(Prepend(path, WalkOne(dir, name))) ==
        [EntryOf(if kid.Dir? then Item(path + [name], true, []) else Item(path + [name], false, kid.data))]
        + (if kid.Dir? then Entries(Prepend(path + [name], Walk(kid))) else [])
  {
    var kid := dir.kids[name];
    if kid.Dir? {
      var below := Walk(kid);
      var l, r := Prepend(path, Prepend([name], below)), Prepend(path + [name], below);
      forall k | 0 <= k < |below| ensures l[k] == r[k] {
        assert path + ([name] + below[k].path) == path + [name] + below[k].path;
      }
      assert l == r;
      EntriesConcat(path, [Item([name], true, [])], Prepend([name], below));
    }
  }

  lemma PrependNothing(items: seq<Item>)
    ensures Prepend([], items) == items
  {
    forall k | 0 <= k < |items| ensures Prepend([], items)[k] == items[k] {
      assert [] + items[k].path == items[k].path;
    }
  }

  class Destination {
    var root: Node

    constructor ()
      ensures root == Dir(map[])
    {
      root := Dir(map[]);
    }

    /** The unpack loop.  It stops at the first bad name or failing operation; what was unpacked
        before stays. */
    method UnpackArchive(entries: seq<Entry>) returns (ok: bool)
      modifies this
      ensures (root, ok) == Unpack(old(root), entries)
    {
      var i := 0;
      while i < |entries|
        invariant 0 <= i <= |entries|
        invariant Unpack(root, entries[i..]) == Unpack(old(root), entries)
      {
        var e := entries[i];
        assert entries[i..][0] == e && entries[i..][1..] == entries[i + 1..];
        var bad := HasDots(e.name);
        if bad { return false; }
        if e.isDir {
          var made := MkdirAll(root, Components(e.name));
          if made.Failure? { return false; }
          root := made.value;
        } else {
          var made := MkdirAll(root, Components(DirPart(e.name)));
          if made.Failure? { return false; }
          root := made.value;
          var written := WriteFile(root, Components(e.name), e.data);
          if written.Failure? { return false; }
          root := written.value;
        }
        i := i + 1;
      }
      ok := true;
    }
  }

  /** strings.Contains(name, "..") */
  method HasDots(name: string) returns (found: bool)
    ensures found <==> Dots(name)
  {
    var i := 0;
    while i + 1 < |name|
      invariant 0 <= i
      invariant forall j :: 0 <= j < i && j < |name| - 1 ==> !(name[j] == '.' && name[j + 1] == '.')
    {
      if name[i] == '.' && name[i + 1] == '.' { return true; }
      i := i + 1;
    }
    found := false;
  }

  /** A directory is zipped and unpacked elsewhere: the same tree comes out, exactly when no name
      contains "..". */
  method CopyDirectory(dir: Node) returns (copy: Node, ok: bool)
    requires dir.Dir? && WellNamed(dir)
    ensures ok <==> !DottedTree(dir)
    ensures ok ==> copy == dir
  {
    var zip := new ZipWriter();
    zip.WalkDir(dir, []);
    PrependNothing(Walk(dir));
    assert zip.entries == ZipDir(dir);
    var dst := new Destination();
    ok := dst.UnpackArchive(zip.entries);
    copy := dst.root;
    RoundTrip(dir);
  }
}
