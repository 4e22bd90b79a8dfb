/** Snapshots of a live file system: what the encoder produces is what the next mount restores. */
module SnapshotSource {
  import opened SequenceNumbers
  import opened SnapshotChecksum
  import opened Vfs
  import opened Snapshot

  // ----- respelling the writable root -----

  lemma FoldedSlice(path: seq<Byte>, k: nat)
    requires k <= |path|
    ensures Folded(path)[..k] == Folded(path[..k]) && Folded(path)[k..] == Folded(path[k..])
  {
  }

  /** The last slash does not depend on the case of letters. */
  lemma SameLastSlash(a: seq<Byte>, b: seq<Byte>)
    requires Same(a, b)
    ensures LastSlash(a) == LastSlash(b) && (LastSlash(a) >= 0 ==> Same(a[..LastSlash(a)], b[..LastSlash(a)]))
  {
    assert |Folded(a)| == |a| == |b|;
    forall i | 0 <= i < |a| ensures a[i] == SLASH <==> b[i] == SLASH {
      assert Lower(a[i]) == Folded(a)[i] == Folded(b)[i] == Lower(b[i]);
    }
    var k := LastSlash(a);
    if k >= 0 {
      FoldedSlice(a, k);
      FoldedSlice(b, k);
    }
  }

  /** A writable path starts with a slash, four letters and a slash. */
  lemma PrefixBytes(path: seq<Byte>)
    requires IsUserWritable(path)
    ensures path[0] == SLASH && path[5] == SLASH && (forall i :: 1 <= i < 5 ==> path[i] != SLASH)
    ensures LastSlash(path) >= 5
  {
    forall i | 0 <= i < 6 ensures Lower(path[i]) == Lower(USER_PREFIX[i]) {
      assert Folded(path[..6])[i] == Folded(USER_PREFIX)[i];
    }
    assert path[5] == SLASH;
  }

  /** Respelling the writable root keeps the name, ignoring case, and its validity. */
  lemma CanonicalPath(path: seq<Byte>)
    requires IsUserWritable(path)
    ensures var spelled := USER_PREFIX + path[6..];
            Same(spelled, path) && ValidPath(spelled) && IsUserWritable(spelled) && |spelled| == |path|
  {
    var spelled := USER_PREFIX + path[6..];
    PrefixBytes(path);
    FoldedSlice(path, 6);
    FoldedSlice(spelled, 6);
    assert spelled[..6] == USER_PREFIX && spelled[6..] == path[6..];
    assert Folded(spelled) == Folded(spelled)[..6] + Folded(spelled)[6..];
    assert Folded(path) == Folded(path)[..6] + Folded(path)[6..];
    SecondComponent(path);
    SecondComponent(spelled);
    assert spelled[1..5] == [0x55, 0x53, 0x45, 0x52];
  }

  /** The components after a five-byte head and a slash. */
  lemma SecondComponent(path: seq<Byte>)
    requires |path| > 6 && path[0] == SLASH && path[5] == SLASH && forall i :: 1 <= i < 5 ==> path[i] != SLASH
    ensures ValidNames(path[1..]) == (ValidName(path[1..5]) && ValidNames(path[6..]))
  {
    var rest := path[1..];
    assert forall i :: 0 <= i < 4 ==> rest[i] == path[i + 1];
    assert FirstSlash(rest) == 4;
    assert rest[..4] == path[1..5] && rest[5..] == path[6..];
  }

  // ----- which nodes are encoded -----

  lemma {:induction false} UsersEncodable(nodes: seq<Node>)
    requires forall i :: 0 <= i < |nodes| ==> NodeOk(nodes[i])
    ensures AllEncodable(Users(nodes))
    ensures forall i :: 0 <= i < |Users(nodes)| ==> EntrySize(Users(nodes)[i]) <= ENTRY_HEADER + USER_PATH_MAX + MAX_FILE_BYTES
  {
    hide Same, ValidPath;
    if nodes != [] {
      var last := nodes[|nodes| - 1];
      UsersEncodable(nodes[..|nodes| - 1]);
      if IsUserWritable(last.path) { Bounded(last); }
    }
  }

  lemma Bounded(n: Node)
    requires NodeOk(n) && IsUserWritable(n.path)
    ensures Encodable(n) && Encodable(Canonical(n)) && EntrySize(Canonical(n)) <= ENTRY_HEADER + USER_PATH_MAX + MAX_FILE_BYTES
  {
  }

  lemma {:induction false} SizeBound(list: seq<Node>, each: nat)
    requires forall i :: 0 <= i < |list| ==> EntrySize(list[i]) <= each
    ensures Size(list) <= |list| * each
  {
    if list != [] { SizeBound(list[..|list| - 1], each); }
  }

  /** Every encoded node stands for a writable node of the file system, earlier nodes first. */
  lemma {:induction false} UserFrom(nodes: seq<Node>, k: nat) returns (i: nat)
    requires k < |Users(nodes)|
    ensures i < |nodes| && IsUserWritable(nodes[i].path) && Users(nodes)[k] == Canonical(nodes[i])
  {
    hide IsUserWritable, Canonical;
    var before := Users(nodes[..|nodes| - 1]);
    if k < |before| { i := UserFrom(nodes[..|nodes| - 1], k); } else { i := |nodes| - 1; }
  }

  /** Every writable node is encoded. */
  lemma {:induction false} UserOf(nodes: seq<Node>, i: nat) returns (k: nat)
    requires i < |nodes| && IsUserWritable(nodes[i].path)
    ensures k < |Users(nodes)| && Users(nodes)[k] == Canonical(nodes[i])
  {
    hide IsUserWritable, Canonical;
    if i == |nodes| - 1 { k := |Users(nodes)| - 1; } else { k := UserOf(nodes[..|nodes| - 1], i); }
  }

  /** Nodes outside the writable root are not counted. */
  lemma {:induction false} UsersCount(nodes: seq<Node>, outside: set<nat>)
    requires forall i :: i in outside ==> i < |nodes| && !IsUserWritable(nodes[i].path)
    ensures |Users(nodes)| + |outside| <= |nodes|
  {
    hide IsUserWritable, Canonical;
    if nodes == [] {
      assert outside == {} by { if x :| x in outside { assert false; } }
    } else {
      UsersCount(nodes[..|nodes| - 1], outside - {|nodes| - 1});
    }
  }

  // ----- every reachable file system encodes to an admissible list -----

  /** A name equal, ignoring case, to a writable one is writable. */
  lemma SameWritable(a: seq<Byte>, b: seq<Byte>)
    requires Same(a, b) && ValidPath(a) && IsUserWritable(b)
    ensures IsUserWritable(a)
  {
    assert |Folded(a)| == |Folded(b)|;
    FoldedSlice(a, 6);
    FoldedSlice(b, 6);
  }

  /** The parent of a writable name is the writable root itself or writable too. */
  lemma WritableParent(path: seq<Byte>, directory: seq<Byte>)
    requires IsUserWritable(path) && ValidPath(directory) && Same(directory, Parent(path))
    ensures |directory| == LastSlash(path) >= 5
    ensures LastSlash(path) > 5 ==> IsUserWritable(directory)
  {
    PrefixBytes(path);
    SecondComponent(path);
    NamesEnd(path[6..]);
    var k := LastSlash(path);
    assert path[6] == path[6..][0] != SLASH;
    assert |Folded(directory)| == |Folded(path[..k])|;
    if k > 5 {
      assert k != 6;
      FoldedSlice(directory, 6);
      FoldedSlice(path[..k], 6);
      assert path[..k][..6] == path[..6];
    }
  }

  lemma CanonicalParent(path: seq<Byte>)
    requires IsUserWritable(path)
    ensures var spelled := USER_PREFIX + path[6..];
            Same(Parent(spelled), Parent(path)) && (LastSlash(path) == 5 ==> Parent(spelled) == USER_ROOT)
  {
    var spelled := USER_PREFIX + path[6..];
    CanonicalPath(path);
    PrefixBytes(path);
    SameLastSlash(spelled, path);
    if LastSlash(path) == 5 { assert spelled[..5] == USER_ROOT; }
  }

  /** A writable node of a file system may follow the encodings of the nodes before it. */
  lemma NodeFollows(nodes: seq<Node>, n: nat)
    requires Namespace(nodes) && n < |nodes| && IsUserWritable(nodes[n].path)
    ensures Follows(Users(nodes[..n]), Canonical(nodes[n]))
  {
    hide Same, ValidPath, IsUserWritable, Parent, Users;
    WritableNotRoot(nodes[n].path);
    var prior, node := Users(nodes[..n]), Canonical(nodes[n]);
    CanonicalPath(nodes[n].path);
    CanonicalParent(nodes[n].path);
    forall k | 0 <= k < |prior| ensures !Same(prior[k].path, node.path) {
      var i := UserFrom(nodes[..n], k);
      CanonicalPath(nodes[i].path);
      if Same(prior[k].path, node.path) { SameChain(nodes[i].path, prior[k].path, node.path, nodes[n].path); }
    }
    assert NodeOk(nodes[n]) && Parented(nodes, n);
    var j :| 0 <= j < n && nodes[j].kind == Directory && Same(nodes[j].path, Parent(nodes[n].path));
    assert NodeOk(nodes[j]);
    WritableParent(nodes[n].path, nodes[j].path);
    if LastSlash(nodes[n].path) > 5 {
      var k := UserOf(nodes[..n], j);
      CanonicalPath(nodes[j].path);
      SameChain(prior[k].path, nodes[j].path, Parent(nodes[n].path), Parent(node.path));
    }
  }

  lemma SameChain(a: seq<Byte>, b: seq<Byte>, c: seq<Byte>, d: seq<Byte>)
    requires (Same(a, b) || Same(b, a)) && Same(b, c) && (Same(c, d) || Same(d, c))
    ensures Same(a, d)
  {
  }

  lemma WritableNotRoot(path: seq<Byte>)
    requires IsUserWritable(path)
    ensures path != ROOT && |path| > 6
  {
  }

  lemma {:induction false} UsersAdmissible(nodes: seq<Node>, n: nat)
    requires Namespace(nodes) && n <= |nodes|
    ensures Admissible(Users(nodes[..n]))
  {
    hide Namespace, Follows, IsUserWritable, Canonical;
    if n > 0 {
      var before, now := nodes[..n - 1], nodes[..n];
      assert now[..n - 1] == before;
      UsersAdmissible(nodes, n - 1);
      if !IsUserWritable(nodes[n - 1].path) {
        assert Users(now) == Users(before);
      } else {
        WritableNotRoot(nodes[n - 1].path);
        NodeFollows(nodes, n - 1);
        AdmissibleExtends(Users(before), Canonical(nodes[n - 1]));
      }
    }
  }

  lemma AdmissibleExtends(list: seq<Node>, n: Node)
    requires Admissible(list) && Follows(list, n)
    ensures Admissible(list + [n])
  {
    hide Follows;
    var next := list + [n];
    forall i | 0 <= i < |next| ensures Follows(next[..i], next[i]) {
      assert next[..i] == list[..i];
      if i == |list| { assert list[..i] == list; }
    }
  }

  /** A writable node presupposes the writable root and the root, neither of which is encoded. */
  lemma {:induction false} RootsBelow(nodes: seq<Node>, n: nat) returns (root: nat, user: nat)
    requires Namespace(nodes) && n < |nodes| && IsUserWritable(nodes[n].path)
    ensures root < user < n && !IsUserWritable(nodes[root].path) && !IsUserWritable(nodes[user].path)
    decreases n
  {
    hide Same, ValidPath, Parent;
    WritableNotRoot(nodes[n].path);
    assert NodeOk(nodes[n]) && Parented(nodes, n);
    var j :| 0 <= j < n && nodes[j].kind == Directory && Same(nodes[j].path, Parent(nodes[n].path));
    assert NodeOk(nodes[j]) && Parented(nodes, j);
    WritableParent(nodes[n].path, nodes[j].path);
    if LastSlash(nodes[n].path) > 5 {
      root, user := RootsBelow(nodes, j);
    } else {
      UserRootParent(nodes[n].path, nodes[j].path);
      var i :| 0 <= i < j && nodes[i].kind == Directory && Same(nodes[i].path, Parent(nodes[j].path));
      RootFolds(nodes[i].path);
      root, user := i, j;
    }
  }

  lemma UserRootParent(path: seq<Byte>, directory: seq<Byte>)
    requires IsUserWritable(path) && LastSlash(path) == 5 && Same(directory, Parent(path))
    ensures directory != ROOT && Parent(directory) == ROOT
  {
    PrefixBytes(path);
    assert |Folded(directory)| == |Folded(path[..5])|;
    SameLastSlash(directory, path[..5]);
  }

  /** At most thirty nodes are encoded, and they always fit. */
  lemma UsersFit(nodes: seq<Node>)
    requires Namespace(nodes)
    ensures AllEncodable(Users(nodes)) && |Users(nodes)| <= MAX_NODES - 2 && Fits(Users(nodes))
  {
    hide IsUserWritable, Canonical, EntrySize, Size, Users, Parented, NodeOk, Same;
    UsersEncodable(nodes);
    if Users(nodes) != [] {
      var i := UserFrom(nodes, 0);
      var root, user := RootsBelow(nodes, i);
      UsersCount(nodes, {root, user});
    }
    SizeBound(Users(nodes), ENTRY_HEADER + USER_PATH_MAX + MAX_FILE_BYTES);
    EmptyList();
  }

  /** For every reachable file system: encoding succeeds exactly when there is something to encode, and the published
      slot is accepted with its generation. */
  lemma EveryStateIsAccepted(nodes: seq<Node>, generation: U64)
    requires Namespace(nodes)
    ensures AllEncodable(Users(nodes))
    ensures Encode(nodes, generation).Ok? <==> Users(nodes) != []
    ensures Users(nodes) != [] ==> Validate(Commit(Encode(nodes, generation).value)) == Ok(generation)
  {
    hide Validate, Image, Commit, Admissible, Users;
    UsersFit(nodes);
    if Users(nodes) != [] {
      assert nodes[..|nodes|] == nodes;
      UsersAdmissible(nodes, |nodes|);
      AcceptedExactly(nodes, generation);
    }
  }
}
