/** Writing a file system to a slot and mounting it again. */
module SnapshotMount {
  import opened Wrappers
  import opened SequenceNumbers
  import opened SnapshotChecksum
  import opened Vfs
  import opened Snapshot
  import opened SnapshotSource

  // ----- filling the slot -----

  /** `bytes` written over `s` from `at` on. */
  function Splice(s: seq<Byte>, at: nat, bytes: seq<Byte>): (r: seq<Byte>)
    requires at + |bytes| <= |s|
    ensures |r| == |s|
  {
    s[..at] + bytes + s[at + |bytes|..]
  }

  method CopyInto(output: array<Byte>, at: nat, bytes: seq<Byte>)
    requires at + |bytes| <= output.Length
    modifies output
    ensures output[..] == Splice(old(output[..]), at, bytes)
  {
    for i := 0 to |bytes|
      invariant output[..at] == old(output[..at])
      invariant output[at..at + i] == bytes[..i]
      invariant output[at + |bytes|..] == old(output[at + |bytes|..])
    {
      output[at + i] := bytes[i];
    }
    assert output[..] == output[..at] + output[at..at + |bytes|] + output[at + |bytes|..];
    assert old(output[..])[..at] == old(output[..at]);
    assert old(output[..])[at + |bytes|..] == old(output[at + |bytes|..]);
  }

  /** One entry at the cursor: the path as spelled, then the writable root over its first six bytes. */
  method PutEntry(output: array<Byte>, cursor: nat, node: Node) returns (next: nat)
    requires Encodable(node) && |node.path| >= |USER_PREFIX|
    requires cursor + EntrySize(Canonical(node)) <= output.Length
    modifies output
    ensures Encodable(Canonical(node)) && next == cursor + EntrySize(Canonical(node))
    ensures output[..] == Splice(old(output[..]), cursor, EntryBytes(Canonical(node)))
  {
    hide LittleEndian, Splice, EntryBytes;
    var entry := Canonical(node);
    EntryParts(node);
    ghost var before := output[..];
    var header := [|node.path|, KindCode(node.kind)] + LittleEndian(|entry.data|, 2);
    CopyInto(output, cursor, header);
    CopyInto(output, cursor + 4, node.path);
    CopyInto(output, cursor + 4, USER_PREFIX);
    next := cursor + 4 + |node.path|;
    CopyInto(output, next, entry.data);
    next := next + |entry.data|;
    SpliceEntry(before, cursor, header, node.path, entry.data);
  }

  lemma EntryParts(node: Node)
    requires Encodable(node) && |node.path| >= |USER_PREFIX|
    ensures var entry := Canonical(node);
            && Encodable(entry) && |entry.path| == |node.path|
            && EntryBytes(entry) == [|node.path|, KindCode(node.kind)] + LittleEndian(|entry.data|, 2)
                                    + (USER_PREFIX + node.path[6..]) + entry.data
  {
  }

  lemma SpliceEntry(s: seq<Byte>, at: nat, header: seq<Byte>, path: seq<Byte>, data: seq<Byte>)
    requires |header| == 4 && |path| >= 6 && at + 4 + |path| + |data| <= |s|
    ensures Splice(Splice(Splice(Splice(s, at, header), at + 4, path), at + 4, USER_PREFIX), at + 4 + |path|, data)
         == Splice(s, at, header + (USER_PREFIX + path[6..]) + data)
  {
    var a := Splice(s, at, header);
    var b := Splice(a, at + 4, path);
    assert b == s[..at] + header + path + s[at + 4 + |path|..];
    var c := Splice(b, at + 4, USER_PREFIX);
    assert c == s[..at] + header + USER_PREFIX + path[6..] + s[at + 4 + |path|..];
    var d := Splice(c, at + 4 + |path|, data);
    assert c[at + 4 + |path| + |data|..] == s[at + 4 + |path| + |data|..];
    assert c[..at + 4 + |path|] == s[..at] + header + USER_PREFIX + path[6..];
  }

  /** The slot while entries are being added: neither the count nor the length is recorded yet. */
  function Draft(list: seq<Node>, generation: U64): (image: seq<Byte>)
    requires AllEncodable(list) && Fits(list)
    ensures |image| == SLOT_BYTES
  {
    Image(list, 0, generation, 0)
  }

  lemma DraftExtends(list: seq<Node>, n: Node, generation: U64)
    requires AllEncodable(list + [n]) && Fits(list + [n])
    ensures AllEncodable(list) && Fits(list) && Size(list + [n]) == Size(list) + EntrySize(n)
    ensures Draft(list + [n], generation) == Splice(Draft(list, generation), HEADER + Size(list), EntryBytes(n))
  {
    hide EntryBytes, Header;
    assert (list + [n])[..|list|] == list;
    assert (list + [n])[|list|] == n;
    forall i | 0 <= i < |list| ensures Encodable(list[i]) { assert Encodable((list + [n])[i]); }
    var head := Header(0, generation, 0);
    var draft := Draft(list, generation);
    assert draft[..HEADER + Size(list)] == head + Entries(list);
    assert draft[HEADER + Size(list) + EntrySize(n)..] == Zeros(SLOT_BYTES - HEADER - Size(list) - EntrySize(n));
  }

  /** Recording the count and the length completes the image. */
  lemma DraftCompletes(list: seq<Node>, count: Byte, generation: U64, used: nat)
    requires AllEncodable(list) && Fits(list)
    ensures Splice(Splice(Draft(list, generation), 6, [count]), 16, LittleEndian(used, 4)) == Image(list, count, generation, used)
  {
    hide LittleEndian, Entries, Size;
    var tail := Zeros(44) + Entries(list) + Zeros(SLOT_BYTES - HEADER - Size(list));
    var magic := MAGIC + LittleEndian(VERSION, 2);
    var draft := Draft(list, generation);
    assert draft == magic + [0, 0] + LittleEndian(generation, 8) + LittleEndian(0, 4) + tail;
    var counted := Splice(draft, 6, [count]);
    assert counted == magic + [count, 0] + LittleEndian(generation, 8) + LittleEndian(0, 4) + tail;
    assert counted[..16] == magic + [count, 0] + LittleEndian(generation, 8);
    assert counted[20..] == tail;
    assert Image(list, count, generation, used)
        == magic + [count, 0] + LittleEndian(generation, 8) + LittleEndian(used, 4) + tail;
  }

  lemma {:induction false} UsersGrow(nodes: seq<Node>, k: nat)
    requires k <= |nodes|
    ensures |Users(nodes[..k])| <= |Users(nodes)| && Size(Users(nodes[..k])) <= Size(Users(nodes))
    decreases |nodes|
  {
    hide IsUserWritable, Canonical, EntrySize;
    if k == |nodes| {
      assert nodes[..k] == nodes;
    } else {
      var shorter := nodes[..|nodes| - 1];
      assert shorter[..k] == nodes[..k];
      UsersGrow(shorter, k);
      if IsUserWritable(nodes[|nodes| - 1].path) {
        assert Users(nodes)[..|Users(nodes)| - 1] == Users(shorter);
      } else {
        assert Users(nodes) == Users(shorter);
      }
    }
  }

  /** Encode the writable nodes of a file system into a slot buffer. */
  method EncodeSnapshot(nodes: seq<Node>, generation: U64, output: array<Byte>) returns (error: Option<StorageError>)
    requires output.Length == SLOT_BYTES && forall i :: 0 <= i < |nodes| ==> NodeOk(nodes[i])
    modifies output
    ensures AllEncodable(Users(nodes))
    ensures error == (if Encode(nodes, generation).Ok? then None else Some(Encode(nodes, generation).error))
    ensures error.None? ==> Encode(nodes, generation) == Ok(output[..])
  {
    hide IsUserWritable, NodeOk, EntryBytes, Draft, Image, Splice, LittleEndian, Users, Size, EntrySize, Entries;
    UsersEncodable(nodes);
    ClearSlot(generation, output);
    StartDraft(generation);
    var cursor, entries := HEADER, 0;
    ghost var list: seq<Node> := [];
    for i := 0 to |nodes|
      invariant list == Users(nodes[..i]) && entries == |list| <= 255
      invariant AllEncodable(list) && Fits(list) && cursor == HEADER + Size(list)
      invariant output[..] == Draft(list, generation)
    {
      UsersStep(nodes, i);
      UsersGrow(nodes, i + 1);
      if IsUserWritable(nodes[i].path) {
        WritableNotRoot(nodes[i].path);
        Bounded(nodes[i]);
        var entry := Canonical(nodes[i]);
        SizeGrows(list, entry);
        if cursor + EntrySize(entry) > SLOT_BYTES || entries == 255 { return Some(NoRoom); }
        DraftExtends(list, entry, generation);
        cursor := PutEntry(output, cursor, nodes[i]);
        list, entries := list + [entry], entries + 1;
      }
    }
    assert nodes[..|nodes|] == nodes;
    if entries == 0 { return Some(InvalidRecord); }
    DraftCompletes(list, entries, generation, cursor);
    CopyInto(output, 6, [entries]);
    CopyInto(output, 16, LittleEndian(cursor, 4));
    return None;
  }

  lemma UsersStep(nodes: seq<Node>, i: nat)
    requires i < |nodes|
    ensures IsUserWritable(nodes[i].path) ==> |nodes[i].path| > 6
    ensures Users(nodes[..i + 1]) == Users(nodes[..i]) + if IsUserWritable(nodes[i].path) then [Canonical(nodes[i])] else []
    ensures !IsUserWritable(nodes[i].path) ==> Users(nodes[..i + 1]) == Users(nodes[..i])
  {
    assert nodes[..i + 1][..i] == nodes[..i];
  }

  /** Zero the slot and write the fixed part of the header. */
  method ClearSlot(generation: U64, output: array<Byte>)
    requires output.Length == SLOT_BYTES
    modifies output
    ensures output[..] == Splice(Zeros(SLOT_BYTES), 0, MAGIC + LittleEndian(VERSION, 2) + [0, 0] + LittleEndian(generation, 8))
  {
    hide Splice, LittleEndian;
    for i := 0 to output.Length
      invariant output[..i] == Zeros(i)
    {
      output[i] := 0;
    }
    assert output[..] == output[..SLOT_BYTES] == Zeros(SLOT_BYTES);
    CopyInto(output, 0, MAGIC + LittleEndian(VERSION, 2) + [0, 0] + LittleEndian(generation, 8));
  }

  lemma SizeGrows(list: seq<Node>, n: Node)
    ensures Size(list + [n]) == Size(list) + EntrySize(n)
  {
    assert (list + [n])[..|list|] == list;
  }

  lemma StartDraft(generation: U64)
    ensures Fits([]) && Size([]) == 0 && Users([]) == []
    ensures Splice(Zeros(SLOT_BYTES), 0, MAGIC + LittleEndian(VERSION, 2) + [0, 0] + LittleEndian(generation, 8))
         == Draft([], generation)
  {
    assert LittleEndian(0, 4) == [0, 0, 0, 0];
  }

  // ----- mounting -----

  /** Create or overwrite one node. */
  function Put(nodes: seq<Node>, n: Node): Result<seq<Node>> {
    var found := Find(nodes, n.path);
    if n.kind == Directory || found.None? then
      if InsertError(nodes, n.path, n.kind, n.data).Some? then Err(VfsFailure)
      else Ok(nodes + [NewNode(n.path, n.kind, n.data)])
    else if |n.data| > MAX_FILE_BYTES || nodes[found.value].kind == Directory then Err(VfsFailure)
    else Ok(nodes[found.value := nodes[found.value].(data := n.data)])
  }

  /** A private copy of the first `n` nodes of the file system being mounted on. */
  function Copied(base: seq<Node>, n: nat): Result<seq<Node>>
    requires n <= |base|
  {
    if n == 0 then Ok(if Find(base, ROOT).Some? then [Node(ROOT, Directory, [])] else [])
    else
      var before := Copied(base, n - 1);
      if before.Err? || base[n - 1].path == ROOT then before else Put(before.value, base[n - 1])
  }

  /** The private copy after the first `n` entries of a slot, and where they end. */
  function Restored(start: seq<Node>, s: seq<Byte>, used: nat, n: nat): Result<(seq<Node>, nat)>
    requires |s| == SLOT_BYTES
  {
    if n == 0 then Ok((start, HEADER))
    else
      var before := Restored(start, s, used, n - 1);
      if before.Err? then before
      else
        var entry := DecodeEntry(s, before.value.1, used);
        if entry.Err? then Err(entry.error)
        else if !(USER_PREFIX <= entry.value.0.path) || Find(before.value.0, entry.value.0.path).Some? then Err(InvalidRecord)
        else
          var put := Put(before.value.0, entry.value.0);
          if put.Err? then Err(put.error) else Ok((put.value, entry.value.1))
  }

  /** Mounting a slot on a file system. */
  function Apply(base: seq<Node>, s: seq<Byte>): Result<seq<Node>>
    requires |s| == SLOT_BYTES
  {
    if Validate(s).Err? then Err(Validate(s).error)
    else
      var copy := Copied(base, |base|);
      if copy.Err? then copy
      else
        var mounted := Restored(copy.value, s, Used(s), s[6]);
        if mounted.Err? then Err(mounted.error) else Ok(mounted.value.0)
  }

  method PutNode(vfs: RamVfs, n: Node) returns (error: Option<StorageError>)
    requires vfs.Valid()
    modifies vfs
    ensures vfs.Valid()
    ensures error.None? == Put(old(vfs.nodes), n).Ok?
    ensures error.None? ==> Put(old(vfs.nodes), n) == Ok(vfs.nodes)
    ensures error.Some? ==> Put(old(vfs.nodes), n) == Err(error.value)
  {
    hide Find, Namespace, ValidPath;
    var failed;
    if n.kind == Directory {
      failed := vfs.Insert(n.path, Directory, []);
    } else {
      failed := vfs.Write(n.path, n.data);
    }
    return if failed.None? then None else Some(VfsFailure);
  }

  /** A private copy of a file system. */
  method CopyNodes(vfs: RamVfs) returns (candidate: RamVfs, error: Option<StorageError>)
    requires vfs.Valid()
    ensures fresh(candidate) && candidate.Valid()
    ensures error.None? ==> Copied(vfs.nodes, |vfs.nodes|) == Ok(candidate.nodes)
    ensures error.Some? ==> Copied(vfs.nodes, |vfs.nodes|) == Err(error.value)
  {
    hide Find, Namespace, Put, InsertError;
    candidate := new RamVfs();
    var found := vfs.FindIndex(ROOT);
    if found.Some? {
      EmptyInsert();
      var _ := candidate.Insert(ROOT, Directory, []);
      assert candidate.nodes == [Node(ROOT, Directory, [])];
    }
    for i := 0 to |vfs.nodes|
      invariant fresh(candidate) && candidate.Valid()
      invariant Copied(vfs.nodes, i) == Ok(candidate.nodes)
    {
      if vfs.nodes[i].path != ROOT {
        error := PutNode(candidate, vfs.nodes[i]);
        if error.Some? {
          CopyStops(vfs.nodes, i + 1, |vfs.nodes|);
          return candidate, error;
        }
      }
    }
    return candidate, None;
  }

  /** Mount into a private copy and publish it only when every entry has been restored. */
  method ApplySnapshot(vfs: RamVfs, snapshot: array<Byte>) returns (error: Option<StorageError>)
    requires vfs.Valid() && snapshot.Length == SLOT_BYTES
    modifies vfs
    ensures vfs.Valid()
    ensures error.None? ==> Apply(old(vfs.nodes), snapshot[..]) == Ok(vfs.nodes)
    ensures error.Some? ==> Apply(old(vfs.nodes), snapshot[..]) == Err(error.value) && vfs.nodes == old(vfs.nodes)
  {
    hide Validate, DecodeEntry, Find, Namespace, Put, InsertError, Copied;
    var s := snapshot[..];
    var generation := ValidateSnapshot(snapshot);
    if generation.Err? { return Some(generation.error); }
    var candidate;
    candidate, error := CopyNodes(vfs);
    if error.Some? { return error; }
    var used, cursor := FromLittleEndian(s[16..20]), HEADER;
    ghost var start := candidate.nodes;
    for i := 0 to s[6]
      invariant fresh(candidate) && candidate.Valid() && vfs.nodes == old(vfs.nodes)
      invariant Restored(start, s, used, i) == Ok((candidate.nodes, cursor))
    {
      var entry := DecodeEntry(s, cursor, used);
      if entry.Err? {
        RestoreStops(start, s, used, i + 1, s[6]);
        return Some(entry.error);
      }
      var node := entry.value.0;
      var present := candidate.FindIndex(node.path);
      if !(USER_PREFIX <= node.path) || present.Some? {
        RestoreStops(start, s, used, i + 1, s[6]);
        return Some(InvalidRecord);
      }
      error := PutNode(candidate, node);
      if error.Some? {
        RestoreStops(start, s, used, i + 1, s[6]);
        return error;
      }
      cursor := entry.value.1;
    }
    vfs.nodes := candidate.nodes;
    return None;
  }

  lemma EmptyInsert()
    ensures InsertError([], ROOT, Directory, []).None?
  {
  }

  lemma {:induction false} CopyStops(base: seq<Node>, k: nat, n: nat)
    requires k <= n <= |base| && Copied(base, k).Err?
    ensures Copied(base, n) == Copied(base, k)
  {
    hide Put;
    if k < n { CopyStops(base, k, n - 1); }
  }

  lemma {:induction false} RestoreStops(start: seq<Node>, s: seq<Byte>, used: nat, k: nat, n: nat)
    requires |s| == SLOT_BYTES && k <= n && Restored(start, s, used, k).Err?
    ensures Restored(start, s, used, n) == Restored(start, s, used, k)
  {
    hide Put, DecodeEntry;
    if k < n { RestoreStops(start, s, used, k, n - 1); }
  }

  /** In a namespace every node can be inserted after the ones before it. */
  lemma PutNext(nodes: seq<Node>, n: nat)
    requires Namespace(nodes) && n < |nodes| && nodes[n].path != ROOT
    ensures Find(nodes[..n], nodes[n].path).None? && Put(nodes[..n], nodes[n]) == Ok(nodes[..n + 1])
  {
    hide Same, ValidPath, Parent, Find;
    var before := nodes[..n];
    assert NodeOk(nodes[n]) && Parented(nodes, n);
    var j :| 0 <= j < n && nodes[j].kind == Directory && Same(nodes[j].path, Parent(nodes[n].path));
    assert before[j] == nodes[j];
    var found := Find(before, Parent(nodes[n].path));
    assert found.Some?;
    if found.value != j { SameTwice(nodes[found.value].path, nodes[j].path, Parent(nodes[n].path)); }
    assert nodes[..n + 1] == before + [nodes[n]];
  }

  lemma SameTwice(a: seq<Byte>, b: seq<Byte>, c: seq<Byte>)
    requires Same(a, c) && Same(b, c)
    ensures Same(a, b) && Same(b, a)
  {
  }

  lemma {:induction false} CopiedIs(base: seq<Node>, n: nat)
    requires Namespace(base) && 1 <= n <= |base| && base[0] == Node(ROOT, Directory, [])
    ensures Copied(base, n) == Ok(base[..n])
  {
    hide Put, ValidPath, Parent, Find;
    if n == 1 {
      assert Same(base[0].path, ROOT);
      assert Copied(base, 0) == Ok([Node(ROOT, Directory, [])]);
      assert base[..1] == [base[0]];
    } else {
      CopiedIs(base, n - 1);
      assert !Same(base[0].path, base[n - 1].path);
      PutNext(base, n - 1);
    }
  }

  lemma {:induction false} RestoredIs(base: seq<Node>, s: seq<Byte>, list: seq<Node>, n: nat)
    requires Holds(s, list) && Namespace(base + list) && n <= |list| && base != [] && base[0].path == ROOT
    requires forall i :: 0 <= i < |list| ==> USER_PREFIX <= list[i].path
    ensures Restored(base, s, HEADER + Size(list), n) == Ok((base + list[..n], HEADER + Size(list[..n])))
  {
    hide Put, Find, Namespace, DecodeEntry, Holds, EntrySize, EntryBytes;
    if n == 0 {
      assert base + list[..0] == base && list[..0] == [];
      EmptyList();
    } else {
      RestoredIs(base, s, list, n - 1);
      var all, k := base + list, |base| + n - 1;
      assert all[..k] == base + list[..n - 1] && all[..k + 1] == base + list[..n] && all[k] == list[n - 1];
      PutNext(all, k);
      DecodesAt(s, list, n - 1);
    }
  }

  /** An admissible list extends a file system that has the writable root and nothing in it. */
  lemma Joined(base: seq<Node>, user: nat, list: seq<Node>)
    requires Namespace(base) && user < |base| && base[user].kind == Directory && Same(base[user].path, USER_ROOT)
    requires forall i :: 0 <= i < |base| ==> !IsUserWritable(base[i].path)
    requires Admissible(list) && |base| + |list| <= MAX_NODES
    requires forall i :: 0 <= i < |list| ==> IsUserWritable(list[i].path) && NodeOk(list[i])
    ensures Namespace(base + list)
  {
    hide Same, ValidPath, Parent, IsUserWritable, NodeOk, Parented;
    var all := base + list;
    forall i | 0 <= i < |all| ensures NodeOk(all[i]) && Parented(all, i) {
      if i < |base| {
        assert NodeOk(base[i]) && Parented(base, i);
        ParentedPrefix(base, list, i);
      } else {
        assert Follows(list[..i - |base|], list[i - |base|]);
        ParentedJoined(base, user, list, i - |base|);
      }
    }
    forall i, j | 0 <= i < j < |all| ensures !Same(all[i].path, all[j].path) {
      if |base| <= i {
        assert Follows(list[..j - |base|], list[j - |base|]);
        assert list[..j - |base|][i - |base|] == all[i];
      } else if |base| <= j && Same(all[i].path, all[j].path) {
        assert NodeOk(base[i]);
        NodePath(base[i]);
        SameWritable(base[i].path, list[j - |base|].path);
      }
    }
  }

  lemma NodePath(n: Node)
    requires NodeOk(n)
    ensures ValidPath(n.path)
  {
  }

  lemma ParentedPrefix(base: seq<Node>, list: seq<Node>, i: nat)
    requires i < |base| && Parented(base, i)
    ensures Parented(base + list, i)
  {
    hide Same, Parent;
    if base[i].path != ROOT {
      var j :| 0 <= j < i && base[j].kind == Directory && Same(base[j].path, Parent(base[i].path));
      assert (base + list)[j] == base[j];
    }
  }

  lemma ParentedJoined(base: seq<Node>, user: nat, list: seq<Node>, k: nat)
    requires user < |base| && base[user].kind == Directory && Same(base[user].path, USER_ROOT)
    requires k < |list| && Follows(list[..k], list[k])
    ensures Parented(base + list, |base| + k)
  {
    hide Same, Parent, ValidPath;
    var all := base + list;
    assert all[|base| + k] == list[k];
    if Parent(list[k].path) == USER_ROOT {
      assert all[user] == base[user];
    } else {
      var i :| 0 <= i < k && list[..k][i].kind == Directory && Same(list[..k][i].path, Parent(list[k].path));
      assert all[|base| + i] == list[i];
    }
  }

  /** Mounting what was published restores the namespace: on a file system that has the writable root and nothing
      in it, with room for the entries, the mount adds exactly the encoded nodes, in order, and nothing else. */
  lemma MountRestores(nodes: seq<Node>, generation: U64, base: seq<Node>, user: nat)
    requires Namespace(nodes) && Users(nodes) != []
    requires Namespace(base) && user < |base| && base[0].kind == Directory
    requires base[user].kind == Directory && Same(base[user].path, USER_ROOT)
    requires forall i :: 0 <= i < |base| ==> !IsUserWritable(base[i].path)
    requires |base| + |Users(nodes)| <= MAX_NODES
    ensures AllEncodable(Users(nodes)) && Encode(nodes, generation).Ok?
    ensures Apply(base, Commit(Encode(nodes, generation).value)) == Ok(base + Users(nodes))
  {
    hide Validate, Image, Commit, Admissible, Users, Copied, Restored, Namespace, IsUserWritable, Same, Holds, Size;
    EveryStateIsAccepted(nodes, generation);
    var s := Commit(Encode(nodes, generation).value);
    EncodedArea(nodes, generation);
    assert nodes[..|nodes|] == nodes;
    UsersAdmissible(nodes, |nodes|);
    UsersWritable(nodes);
    Joined(base, user, Users(nodes));
    FirstIsRoot(base);
    CopiedIs(base, |base|);
    assert base[..|base|] == base;
    RestoredIs(base, s, Users(nodes), |Users(nodes)|);
    assert Users(nodes)[..|Users(nodes)|] == Users(nodes);
  }

  lemma FirstIsRoot(base: seq<Node>)
    requires Namespace(base) && base != [] && base[0].kind == Directory
    ensures base[0] == Node(ROOT, Directory, [])
  {
    assert Parented(base, 0) && NodeOk(base[0]);
  }

  lemma UsersWritable(nodes: seq<Node>)
    requires Namespace(nodes)
    ensures forall k :: 0 <= k < |Users(nodes)| ==>
              IsUserWritable(Users(nodes)[k].path) && NodeOk(Users(nodes)[k]) && USER_PREFIX <= Users(nodes)[k].path
  {
    hide Users, Same, ValidNames;
    forall k | 0 <= k < |Users(nodes)|
      ensures IsUserWritable(Users(nodes)[k].path) && NodeOk(Users(nodes)[k]) && USER_PREFIX <= Users(nodes)[k].path
    {
      var i := UserFrom(nodes, k);
      assert NodeOk(nodes[i]);
      CanonicalPath(nodes[i].path);
    }
  }
}
