/** The RAM file system: an insertion-ordered list of nodes under one path policy. */
module Vfs {
  import opened Wrappers
  import opened SequenceNumbers

  const MAX_NODES: nat := 32
  const MAX_FILE_BYTES: nat := 512
  const USER_PATH_MAX: nat := 64
  const SLASH: Byte := 0x2f
  const ROOT: seq<Byte> := [0x2f]
  /** `/USER/` */
  const USER_PREFIX: seq<Byte> := [0x2f, 0x55, 0x53, 0x45, 0x52, 0x2f]

  datatype Kind = File | Directory
  datatype Node = Node(path: seq<Byte>, kind: Kind, data: seq<Byte>)
  datatype VfsError = Exists | NotFound | NoSpace | IsDirectory | NotDirectory | NotEmpty | InvalidPath | InvalidOffset

  // ----- path policy -----

  function Lower(b: Byte): Byte { if 65 <= b <= 90 then b + 32 else b }

  function Folded(path: seq<Byte>): (r: seq<Byte>)
    ensures |r| == |path|
  {
    seq(|path|, i requires 0 <= i < |path| => Lower(path[i]))
  }

  /** Names are compared without regard to ASCII case. */
  predicate Same(a: seq<Byte>, b: seq<Byte>) { Folded(a) == Folded(b) }

  predicate NameByte(b: Byte) {
    48 <= b <= 57 || 65 <= b <= 90 || 97 <= b <= 122 || b in {0x2e, 0x5f, 0x2d}
  }

  predicate ValidName(name: seq<Byte>) {
    name != [] && |name| <= USER_PATH_MAX && name != [0x2e] && name != [0x2e, 0x2e]
    && forall i :: 0 <= i < |name| ==> NameByte(name[i])
  }

  function FirstSlash(s: seq<Byte>): (r: nat)
    ensures r <= |s| && (forall i :: 0 <= i < r ==> s[i] != SLASH) && (r < |s| ==> s[r] == SLASH)
  {
    if s == [] || s[0] == SLASH then 0 else 1 + FirstSlash(s[1..])
  }

  function LastSlash(s: seq<Byte>): (r: int)
    ensures -1 <= r < |s| && (forall i :: r < i < |s| ==> s[i] != SLASH) && (r >= 0 ==> s[r] == SLASH)
  {
    if s == [] then -1 else if s[|s| - 1] == SLASH then |s| - 1 else LastSlash(s[..|s| - 1])
  }

  /** Every component between slashes is a valid name. */
  predicate ValidNames(rest: seq<Byte>)
    decreases |rest|
  {
    var k := FirstSlash(rest);
    if k == |rest| then ValidName(rest) else ValidName(rest[..k]) && ValidNames(rest[k + 1..])
  }

  predicate ValidPath(path: seq<Byte>) {
    |path| <= USER_PATH_MAX && (path == ROOT || (path != [] && path[0] == SLASH && ValidNames(path[1..])))
  }

  predicate IsUserWritable(path: seq<Byte>) {
    ValidPath(path) && |path| > |USER_PREFIX| && Same(path[..|USER_PREFIX|], USER_PREFIX)
  }

  function Parent(path: seq<Byte>): seq<Byte> {
    if LastSlash(path) <= 0 then ROOT else path[..LastSlash(path)]
  }

  // ----- the namespace -----

  /** The first node with this name. */
  function Find(nodes: seq<Node>, path: seq<Byte>): (r: Option<nat>)
    ensures r.Some? ==> r.value < |nodes| && Same(nodes[r.value].path, path)
    ensures r.None? ==> forall i :: 0 <= i < |nodes| ==> !Same(nodes[i].path, path)
  {
    if nodes == [] then None
    else
      var before := Find(nodes[..|nodes| - 1], path);
      if before.Some? then before
      else if Same(nodes[|nodes| - 1].path, path) then Some(|nodes| - 1) else None
  }

  /** The node's parent directory comes before it. */
  ghost predicate Parented(nodes: seq<Node>, i: nat)
    requires i < |nodes|
  {
    nodes[i].path == ROOT
    || exists j :: 0 <= j < i && nodes[j].kind == Directory && Same(nodes[j].path, Parent(nodes[i].path))
  }

  predicate NodeOk(n: Node) {
    ValidPath(n.path) && |n.data| <= MAX_FILE_BYTES && (n.kind == Directory ==> n.data == [])
  }

  /** What every operation keeps. */
  ghost predicate Namespace(nodes: seq<Node>) {
    && |nodes| <= MAX_NODES
    && (forall i :: 0 <= i < |nodes| ==> NodeOk(nodes[i]) && Parented(nodes, i))
    && (forall i, j :: 0 <= i < j < |nodes| ==> !Same(nodes[i].path, nodes[j].path))
  }

  predicate DirectChild(directory: seq<Byte>, candidate: seq<Byte>) {
    var skip := if directory == ROOT then 1 else |directory| + 1;
    && skip < |candidate|
    && (directory == ROOT || Same(candidate[..|directory|], directory))
    && candidate[skip - 1] == SLASH
    && SLASH !in candidate[skip..]
  }

  // ----- operations on the list -----

  function InsertError(nodes: seq<Node>, path: seq<Byte>, kind: Kind, data: seq<Byte>): Option<VfsError> {
    if kind == File && |data| > MAX_FILE_BYTES then Some(NoSpace)
    else if !ValidPath(path) then Some(InvalidPath)
    else if Find(nodes, path).Some? then Some(Exists)
    else if path != ROOT && Find(nodes, Parent(path)).None? then Some(NotFound)
    else if path != ROOT && nodes[Find(nodes, Parent(path)).value].kind == File then Some(NotDirectory)
    else if |nodes| >= MAX_NODES then Some(NoSpace)
    else None
  }

  function NewNode(path: seq<Byte>, kind: Kind, data: seq<Byte>): Node {
    Node(path, kind, if kind == File then data else [])
  }

  lemma InsertKeeps(nodes: seq<Node>, path: seq<Byte>, kind: Kind, data: seq<Byte>)
    requires Namespace(nodes) && InsertError(nodes, path, kind, data).None?
    ensures Namespace(nodes + [NewNode(path, kind, data)])
  {
    hide Same, ValidPath, Parent;
    var next := nodes + [NewNode(path, kind, data)];
    forall i | 0 <= i < |next| ensures Parented(next, i) {
      if i < |nodes| {
        assert Parented(nodes, i);
        if nodes[i].path != ROOT {
          var j :| 0 <= j < i && nodes[j].kind == Directory && Same(nodes[j].path, Parent(nodes[i].path));
          assert next[j].kind == Directory && Same(next[j].path, Parent(next[i].path));
        }
      } else if path != ROOT {
        var j := Find(nodes, Parent(path)).value;
        assert next[j].kind == Directory && Same(next[j].path, Parent(next[i].path));
      }
    }
  }

  /** Replacing a file's contents by at most `MAX_FILE_BYTES` bytes. */
  lemma RewriteKeeps(nodes: seq<Node>, index: nat, data: seq<Byte>)
    requires Namespace(nodes) && index < |nodes| && nodes[index].kind == File && |data| <= MAX_FILE_BYTES
    ensures Namespace(nodes[index := nodes[index].(data := data)])
  {
    hide Same, ValidPath, Parent;
    var next := nodes[index := nodes[index].(data := data)];
    forall i | 0 <= i < |next| ensures Parented(next, i) {
      assert Parented(nodes, i);
      if nodes[i].path != ROOT {
        var j :| 0 <= j < i && nodes[j].kind == Directory && Same(nodes[j].path, Parent(nodes[i].path));
        assert next[j].kind == Directory && Same(next[j].path, Parent(next[i].path));
      }
    }
  }

  /** A valid path other than the root splits at its last slash into its parent and a non-empty name. */
  lemma {:induction false} NamesEnd(rest: seq<Byte>)
    requires ValidNames(rest)
    ensures rest != [] && rest[0] != SLASH && rest[|rest| - 1] != SLASH
    decreases |rest|
  {
    var k := FirstSlash(rest);
    if k < |rest| { NamesEnd(rest[k + 1..]); }
  }

  /** A node whose parent is `directory` is a direct child of it, so a directory that passes the emptiness test has
      no node below it. */
  lemma ParentIsDirectChild(directory: seq<Byte>, path: seq<Byte>)
    requires ValidPath(path) && path != ROOT && ValidPath(directory) && directory != ROOT && Same(directory, Parent(path))
    ensures DirectChild(directory, path)
  {
    NamesEnd(path[1..]);
    var k := LastSlash(path);
    assert k < |path| - 1;
    assert |Folded(directory)| == |directory|;
    if k <= 0 {
      NamesEnd(directory[1..]);
      assert false;
    }
    assert path[..|directory|] == Parent(path);
  }

  function RemoveError(nodes: seq<Node>, path: seq<Byte>): Option<VfsError> {
    var found := Find(nodes, path);
    if found.None? then Some(NotFound)
    else if path == ROOT then Some(InvalidPath)
    else if nodes[found.value].kind == Directory && HasChild(nodes, nodes[found.value].path) then Some(NotEmpty)
    else None
  }

  predicate HasChild(nodes: seq<Node>, directory: seq<Byte>) {
    exists i :: 0 <= i < |nodes| && DirectChild(directory, nodes[i].path)
  }

  function Without(nodes: seq<Node>, index: nat): seq<Node>
    requires index < |nodes|
  {
    nodes[..index] + nodes[index + 1..]
  }

  lemma RootFolds(path: seq<Byte>)
    requires Same(path, ROOT)
    ensures path == ROOT
  {
    assert |path| == 1;
    assert Lower(path[0]) == Folded(path)[0] == Folded(ROOT)[0] == SLASH;
  }

  lemma NodeFacts(nodes: seq<Node>, k: nat)
    requires Namespace(nodes) && k < |nodes|
    ensures NodeOk(nodes[k]) && Parented(nodes, k)
  {
  }

  /** A node that stays still has its parent before it. */
  lemma NodeStays(nodes: seq<Node>, path: seq<Byte>, index: nat, i: nat)
    requires Namespace(nodes) && RemoveError(nodes, path).None? && index == Find(nodes, path).value
    requires i < |nodes| - 1
    ensures var next := Without(nodes, index);
            next[i] == nodes[if i < index then i else i + 1] && Parented(next, i)
  {
    hide Same, ValidPath, Parent, DirectChild, Namespace;
    var next := Without(nodes, index);
    var was := if i < index then i else i + 1;
    assert next[i] == nodes[was];
    NodeFacts(nodes, was);
    if nodes[was].path != ROOT {
      NotRoot(nodes, path);
      var j :| 0 <= j < was && nodes[j].kind == Directory && Same(nodes[j].path, Parent(nodes[was].path));
      NodeFacts(nodes, j);
      if j == index {
        ParentIsDirectChild(nodes[j].path, nodes[was].path);
      }
      var now := if j < index then j else j - 1;
      assert next[now] == nodes[j];
    }
  }

  lemma RemoveKeeps(nodes: seq<Node>, path: seq<Byte>)
    requires Namespace(nodes) && RemoveError(nodes, path).None?
    ensures Namespace(Without(nodes, Find(nodes, path).value))
  {
    hide NodeOk, Parented, Same;
    var index := Find(nodes, path).value;
    var next := Without(nodes, index);
    forall i | 0 <= i < |next| ensures NodeOk(next[i]) && Parented(next, i) {
      NodeStays(nodes, path, index, i);
      NodeFacts(nodes, if i < index then i else i + 1);
    }
  }

  lemma NotRoot(nodes: seq<Node>, path: seq<Byte>)
    requires Namespace(nodes) && RemoveError(nodes, path).None?
    ensures nodes[Find(nodes, path).value].path != ROOT
  {
    if nodes[Find(nodes, path).value].path == ROOT { RootFolds(path); }
  }

  // ----- the file system object -----

  class RamVfs {
    var nodes: seq<Node>

    ghost predicate Valid()
      reads this
    {
      Namespace(nodes)
    }

    constructor ()
      ensures Valid() && nodes == []
    {
      nodes := [];
    }

    method FindIndex(path: seq<Byte>) returns (found: Option<nat>)
      ensures found == Find(nodes, path)
    {
      for i := 0 to |nodes|
        invariant Find(nodes[..i], path).None?
      {
        assert nodes[..i + 1][..i] == nodes[..i];
        if Folded(nodes[i].path) == Folded(path) {
          FindStays(nodes, i + 1, path);
          return Some(i);
        }
      }
      assert nodes[..|nodes|] == nodes;
      return None;
    }

    method Insert(path: seq<Byte>, kind: Kind, data: seq<Byte>) returns (error: Option<VfsError>)
      requires Valid()
      modifies this
      ensures Valid() && error == InsertError(old(nodes), path, kind, data)
      ensures nodes == if error.None? then old(nodes) + [NewNode(path, kind, data)] else old(nodes)
    {
      if kind == File && |data| > MAX_FILE_BYTES { return Some(NoSpace); }
      if !ValidPath(path) { return Some(InvalidPath); }
      var found := FindIndex(path);
      if found.Some? { return Some(Exists); }
      if path != ROOT {
        var parent := FindIndex(Parent(path));
        if parent.None? { return Some(NotFound); }
        if nodes[parent.value].kind == File { return Some(NotDirectory); }
      }
      if |nodes| >= MAX_NODES { return Some(NoSpace); }
      InsertKeeps(nodes, path, kind, data);
      nodes := nodes + [NewNode(path, kind, data)];
      return None;
    }

    method Touch(path: seq<Byte>) returns (error: Option<VfsError>)
      requires Valid()
      modifies this
      ensures Valid()
      ensures error == if Find(old(nodes), path).Some? then None else InsertError(old(nodes), path, File, [])
      ensures nodes == if Find(old(nodes), path).Some? || error.Some? then old(nodes)
                       else old(nodes) + [Node(path, File, [])]
    {
      var found := FindIndex(path);
      if found.Some? { return None; }
      error := Insert(path, File, []);
    }

    /** Replace a file's contents, or create it. */
    method Write(path: seq<Byte>, data: seq<Byte>) returns (error: Option<VfsError>)
      requires Valid()
      modifies this
      ensures Valid()
      ensures error == if |data| > MAX_FILE_BYTES then Some(NoSpace)
                       else if Find(old(nodes), path).None? then InsertError(old(nodes), path, File, data)
                       else if old(nodes)[Find(old(nodes), path).value].kind == Directory then Some(IsDirectory)
                       else None
      ensures error.Some? ==> nodes == old(nodes)
      ensures error.None? ==>
                var found := Find(old(nodes), path);
                nodes == if found.None? then old(nodes) + [Node(path, File, data)]
                         else old(nodes)[found.value := old(nodes)[found.value].(data := data)]
    {
      if |data| > MAX_FILE_BYTES { return Some(NoSpace); }
      var found := FindIndex(path);
      if found.Some? {
        if nodes[found.value].kind == Directory { return Some(IsDirectory); }
        RewriteKeeps(nodes, found.value, data);
        nodes := nodes[found.value := nodes[found.value].(data := data)];
        return None;
      }
      error := Insert(path, File, data);
    }

    /** Extend a file, creating it first if there is none. */
    method Append(path: seq<Byte>, data: seq<Byte>) returns (error: Option<VfsError>)
      requires Valid()
      modifies this
      ensures Valid()
      ensures error.Some? ==> nodes == old(nodes)
      ensures error.None? ==>
                var found := Find(old(nodes), path);
                if found.None? then nodes == old(nodes) + [Node(path, File, data)]
                else nodes == old(nodes)[found.value := old(nodes)[found.value].(data := old(nodes)[found.value].data + data)]
      ensures error == if |data| > MAX_FILE_BYTES then Some(NoSpace)
                       else if Find(old(nodes), path).None? then InsertError(old(nodes), path, File, [])
                       else if old(nodes)[Find(old(nodes), path).value].kind == Directory then Some(IsDirectory)
                       else if |old(nodes)[Find(old(nodes), path).value].data| + |data| > MAX_FILE_BYTES then Some(NoSpace)
                       else None
    {
      hide Namespace, Find, ValidPath, Parent, InsertError;
      if |data| > MAX_FILE_BYTES { return Some(NoSpace); }
      var found := FindIndex(path);
      if found.None? {
        error := Insert(path, File, []);
        if error.Some? { return error; }
        var index := |nodes| - 1;
        RewriteKeeps(nodes, index, data);
        nodes := nodes[index := nodes[index].(data := data)];
        assert nodes == old(nodes) + [Node(path, File, data)];
        return None;
      }
      var node := nodes[found.value];
      if node.kind == Directory { return Some(IsDirectory); }
      if |node.data| + |data| > MAX_FILE_BYTES { return Some(NoSpace); }
      RewriteKeeps(nodes, found.value, node.data + data);
      nodes := nodes[found.value := node.(data := node.data + data)];
      return None;
    }

    /** Overwrite or extend a file from an offset inside it. */
    method WriteAt(path: seq<Byte>, offset: nat, data: seq<Byte>) returns (error: Option<VfsError>)
      requires Valid()
      modifies this
      ensures Valid()
      ensures var found := Find(old(nodes), path);
              if found.None? then error == Some(NotFound) && nodes == old(nodes)
              else
                var node := old(nodes)[found.value];
                if node.kind == Directory then error == Some(IsDirectory) && nodes == old(nodes)
                else if offset > |node.data| then error == Some(InvalidOffset) && nodes == old(nodes)
                else if offset + |data| > MAX_FILE_BYTES then error == Some(NoSpace) && nodes == old(nodes)
                else error.None? && nodes == old(nodes)[found.value := node.(data := Overwritten(node.data, offset, data))]
    {
      var found := FindIndex(path);
      if found.None? { return Some(NotFound); }
      var node := nodes[found.value];
      if node.kind == Directory { return Some(IsDirectory); }
      if offset > |node.data| { return Some(InvalidOffset); }
      if offset + |data| > MAX_FILE_BYTES { return Some(NoSpace); }
      RewriteKeeps(nodes, found.value, Overwritten(node.data, offset, data));
      nodes := nodes[found.value := node.(data := Overwritten(node.data, offset, data))];
      return None;
    }

    method Truncate(path: seq<Byte>) returns (error: Option<VfsError>)
      requires Valid()
      modifies this
      ensures Valid()
      ensures var found := Find(old(nodes), path);
              if found.None? then error == Some(NotFound) && nodes == old(nodes)
              else if old(nodes)[found.value].kind == Directory then error == Some(IsDirectory) && nodes == old(nodes)
              else error.None? && nodes == old(nodes)[found.value := old(nodes)[found.value].(data := [])]
    {
      var found := FindIndex(path);
      if found.None? { return Some(NotFound); }
      if nodes[found.value].kind == Directory { return Some(IsDirectory); }
      RewriteKeeps(nodes, found.value, []);
      nodes := nodes[found.value := nodes[found.value].(data := [])];
      return None;
    }

    /** Later nodes move down one place, so parents still precede their children. */
    method Remove(path: seq<Byte>) returns (error: Option<VfsError>)
      requires Valid()
      modifies this
      ensures Valid() && error == RemoveError(old(nodes), path)
      ensures nodes == if error.None? then Without(old(nodes), Find(old(nodes), path).value) else old(nodes)
    {
      var found := FindIndex(path);
      if found.None? { return Some(NotFound); }
      if path == ROOT { return Some(InvalidPath); }
      if nodes[found.value].kind == Directory && HasChild(nodes, nodes[found.value].path) { return Some(NotEmpty); }
      RemoveKeeps(nodes, path);
      nodes := nodes[..found.value] + nodes[found.value + 1..];
      return None;
    }
  }

  function Overwritten(data: seq<Byte>, offset: nat, bytes: seq<Byte>): seq<Byte>
    requires offset <= |data|
  {
    data[..offset] + bytes + if offset + |bytes| < |data| then data[offset + |bytes|..] else []
  }

  /** The first match in a prefix is the first match. */
  lemma {:induction false} FindStays(nodes: seq<Node>, k: nat, path: seq<Byte>)
    requires k <= |nodes| && Find(nodes[..k], path).Some?
    ensures Find(nodes, path) == Find(nodes[..k], path)
    decreases |nodes|
  {
    if k == |nodes| {
      assert nodes[..k] == nodes;
    } else {
      var shorter := nodes[..|nodes| - 1];
      assert shorter[..k] == nodes[..k];
      FindStays(shorter, k, path);
    }
  }

  /** A write is read back: afterwards the name is found, as a file, with the written contents. */
  lemma WriteIsRead(nodes: seq<Node>, path: seq<Byte>, data: seq<Byte>)
    ensures var found := Find(nodes, path);
            var next := if found.None? then nodes + [Node(path, File, data)]
                        else nodes[found.value := nodes[found.value].(data := data)];
            Find(next, path).Some? && next[Find(next, path).value].data == data
  {
    var found := Find(nodes, path);
    if found.None? {
      assert (nodes + [Node(path, File, data)])[..|nodes|] == nodes;
    } else {
      FindSamePaths(nodes, nodes[found.value := nodes[found.value].(data := data)], path);
    }
  }

  /** Where a node is found depends on the names only. */
  lemma {:induction false} FindSamePaths(a: seq<Node>, b: seq<Node>, path: seq<Byte>)
    requires |a| == |b| && forall i :: 0 <= i < |a| ==> a[i].path == b[i].path
    ensures Find(a, path) == Find(b, path)
  {
    if a != [] { FindSamePaths(a[..|a| - 1], b[..|b| - 1], path); }
  }
}
