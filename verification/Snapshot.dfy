/** The on-disk snapshot of the user namespace: encoder, decoder and admission. */
module Snapshot {
  import opened SequenceNumbers
  import opened SnapshotChecksum
  import opened Vfs

  const SLOT_BYTES: nat := 40 * 512
  const HEADER: nat := 64
  const ENTRY_HEADER: nat := 4
  const MAGIC: seq<Byte> := [0x47, 0x46, 0x53, 0x32]
  const VERSION: nat := 3
  const COMMITTED: Byte := 0xa5
  /** `/USER` */
  const USER_ROOT: seq<Byte> := [0x2f, 0x55, 0x53, 0x45, 0x52]

  datatype StorageError = InvalidRecord | NoRoom | VfsFailure
  datatype Result<+T> = Ok(value: T) | Err(error: StorageError)

  // ----- what is encoded -----

  /** A writable node as the disk records it: the writable root respelled, directories without data. */
  function Canonical(n: Node): Node
    requires |n.path| >= |USER_PREFIX|
  {
    Node(USER_PREFIX + n.path[|USER_PREFIX|..], n.kind, if n.kind == File then n.data else [])
  }

  /** The writable nodes in list order. */
  function Users(nodes: seq<Node>): seq<Node> {
    if nodes == [] then []
    else Users(nodes[..|nodes| - 1])
         + if IsUserWritable(nodes[|nodes| - 1].path) then [Canonical(nodes[|nodes| - 1])] else []
  }

  predicate Encodable(n: Node) {
    1 <= |n.path| <= 255 && |n.data| <= 65535 && (n.kind == Directory ==> n.data == [])
  }

  predicate AllEncodable(list: seq<Node>) { forall i :: 0 <= i < |list| ==> Encodable(list[i]) }

  function KindCode(kind: Kind): Byte { if kind == File then 1 else 2 }

  function EntryHeader(n: Node): seq<Byte>
    requires Encodable(n)
  {
    [|n.path|, KindCode(n.kind)] + LittleEndian(|n.data|, 2)
  }

  function EntryBytes(n: Node): (bytes: seq<Byte>)
    requires Encodable(n)
    ensures |bytes| == EntrySize(n)
  {
    EntryHeader(n) + n.path + n.data
  }

  function EntrySize(n: Node): nat { ENTRY_HEADER + |n.path| + |n.data| }

  function Size(list: seq<Node>): nat {
    if list == [] then 0 else Size(list[..|list| - 1]) + EntrySize(list[|list| - 1])
  }

  function Entries(list: seq<Node>): (bytes: seq<Byte>)
    requires AllEncodable(list)
    ensures |bytes| == Size(list)
  {
    if list == [] then [] else Entries(list[..|list| - 1]) + EntryBytes(list[|list| - 1])
  }

  predicate Fits(list: seq<Node>) { HEADER + Size(list) <= SLOT_BYTES && |list| <= 255 }

  function Zeros(n: nat): (z: seq<Byte>)
    ensures |z| == n
  {
    seq(n, _ => 0)
  }

  function Header(count: Byte, generation: U64, used: nat): (h: seq<Byte>)
    ensures |h| == HEADER
  {
    MAGIC + LittleEndian(VERSION, 2) + [count, 0] + LittleEndian(generation, 8) + LittleEndian(used, 4) + Zeros(44)
  }

  function Image(list: seq<Node>, count: Byte, generation: U64, used: nat): (image: seq<Byte>)
    requires AllEncodable(list) && Fits(list)
    ensures |image| == SLOT_BYTES
  {
    Header(count, generation, used) + Entries(list) + Zeros(SLOT_BYTES - HEADER - Size(list))
  }

  function Encode(nodes: seq<Node>, generation: U64): Result<seq<Byte>>
    requires AllEncodable(Users(nodes))
  {
    var list := Users(nodes);
    if !Fits(list) then Err(NoRoom)
    else if list == [] then Err(InvalidRecord)
    else Ok(Image(list, |list|, generation, HEADER + Size(list)))
  }

  /** What the volume adds when it publishes a slot. */
  function Commit(image: seq<Byte>): (r: seq<Byte>)
    requires |image| == SLOT_BYTES
    ensures |r| == SLOT_BYTES
  {
    var marked := image[7 := COMMITTED];
    marked[..CHECKSUM_OFFSET] + LittleEndian(Checksum(marked), 4) + marked[CHECKSUM_OFFSET + 4..]
  }

  // ----- decoding -----

  function DecodeEntry(s: seq<Byte>, cursor: nat, used: nat): (r: Result<(Node, nat)>)
    requires |s| == SLOT_BYTES
    ensures r.Ok? ==> cursor + ENTRY_HEADER < r.value.1 <= used <= SLOT_BYTES
  {
    if used > SLOT_BYTES || cursor + ENTRY_HEADER > used then Err(InvalidRecord)
    else
      var pathLength, code := s[cursor], s[cursor + 1];
      var dataLength := FromLittleEndian(s[cursor + 2..cursor + 4]);
      if code != 1 && code != 2 then Err(InvalidRecord)
      else
        var kind := if code == 1 then File else Directory;
        var pathStart := cursor + ENTRY_HEADER;
        var dataStart := pathStart + pathLength;
        var end := dataStart + dataLength;
        if pathLength == 0 || (kind == Directory && dataLength != 0) || end > used then Err(InvalidRecord)
        else Ok((Node(s[pathStart..dataStart], kind, s[dataStart..end]), end))
  }

  /** The first `n` entries and where they end. */
  function DecodeAll(s: seq<Byte>, used: nat, n: nat): Result<(seq<Node>, nat)>
    requires |s| == SLOT_BYTES
  {
    if n == 0 then Ok(([], HEADER))
    else
      var before := DecodeAll(s, used, n - 1);
      if before.Err? then before
      else
        var entry := DecodeEntry(s, before.value.1, used);
        if entry.Err? then Err(entry.error) else Ok((before.value.0 + [entry.value.0], entry.value.1))
  }

  // ----- admission -----

  function Used(s: seq<Byte>): nat
    requires |s| == SLOT_BYTES
  {
    FromLittleEndian(s[16..20])
  }

  predicate HeaderOk(s: seq<Byte>)
    requires |s| == SLOT_BYTES
  {
    && s[..4] == MAGIC && FromLittleEndian(s[4..6]) == VERSION && 0 < s[6] <= MAX_NODES - 2 && s[7] == COMMITTED
    && HEADER <= Used(s) <= SLOT_BYTES
    && Checksum(s) == FromLittleEndian(s[CHECKSUM_OFFSET..CHECKSUM_OFFSET + 4])
  }

  /** An entry may follow the entries before it: a valid, new name under the writable root whose parent
      directory has been seen. */
  predicate Follows(prior: seq<Node>, n: Node) {
    && USER_PREFIX <= n.path && ValidPath(n.path) && |n.data| <= MAX_FILE_BYTES
    && (forall i :: 0 <= i < |prior| ==> !Same(prior[i].path, n.path))
    && (Parent(n.path) == USER_ROOT
        || exists i :: 0 <= i < |prior| && prior[i].kind == Directory && Same(prior[i].path, Parent(n.path)))
  }

  /** Decode and admit the first `n` entries. */
  function AdmitAll(s: seq<Byte>, used: nat, n: nat): Result<(seq<Node>, nat)>
    requires |s| == SLOT_BYTES
  {
    if n == 0 then Ok(([], HEADER))
    else
      var before := AdmitAll(s, used, n - 1);
      if before.Err? then before
      else
        var entry := DecodeEntry(s, before.value.1, used);
        if entry.Err? then Err(entry.error)
        else if !Follows(before.value.0, entry.value.0) then Err(InvalidRecord)
        else Ok((before.value.0 + [entry.value.0], entry.value.1))
  }

  function Validate(s: seq<Byte>): Result<U64>
    requires |s| == SLOT_BYTES
  {
    if !HeaderOk(s) then Err(InvalidRecord)
    else
      var entries := AdmitAll(s, Used(s), s[6]);
      if entries.Err? then Err(entries.error)
      else if entries.value.1 != Used(s) then Err(InvalidRecord)
      else
        assert Pow256(8) == U64_MAX + 1;
        Ok(FromLittleEndian(s[8..16]))
  }

  method ValidateSnapshot(snapshot: array<Byte>) returns (r: Result<U64>)
    requires snapshot.Length == SLOT_BYTES
    ensures r == Validate(snapshot[..])
  {
    hide DecodeEntry, Follows;
    var s := snapshot[..];
    if s[..4] != MAGIC || FromLittleEndian(s[4..6]) != VERSION || s[6] == 0 || s[6] > MAX_NODES - 2 || s[7] != COMMITTED {
      return Err(InvalidRecord);
    }
    var used := FromLittleEndian(s[16..20]);
    if used < HEADER || used > SLOT_BYTES { return Err(InvalidRecord); }
    var checksum := ComputeChecksum(snapshot);
    if checksum != FromLittleEndian(s[CHECKSUM_OFFSET..CHECKSUM_OFFSET + 4]) { return Err(InvalidRecord); }
    var cursor, prior: seq<Node> := HEADER, [];
    for index := 0 to s[6]
      invariant AdmitAll(s, used, index) == Ok((prior, cursor))
    {
      var entry := DecodeEntry(s, cursor, used);
      if entry.Err? || !Follows(prior, entry.value.0) {
        AdmitStops(s, used, index + 1, s[6]);
        return Err(InvalidRecord);
      }
      prior, cursor := prior + [entry.value.0], entry.value.1;
    }
    if cursor != used { return Err(InvalidRecord); }
    assert Pow256(8) == U64_MAX + 1;
    return Ok(FromLittleEndian(s[8..16]));
  }

  /** A refused entry refuses the snapshot. */
  lemma {:induction false} AdmitStops(s: seq<Byte>, used: nat, k: nat, n: nat)
    requires |s| == SLOT_BYTES && k <= n && AdmitAll(s, used, k).Err?
    ensures AdmitAll(s, used, n) == Err(InvalidRecord)
  {
    hide Follows;
    if k < n {
      AdmitStops(s, used, k, n - 1);
    } else {
      AdmitError(s, used, k);
    }
  }

  lemma {:induction false} AdmitError(s: seq<Byte>, used: nat, n: nat)
    requires |s| == SLOT_BYTES
    ensures AdmitAll(s, used, n).Err? ==> AdmitAll(s, used, n) == Err(InvalidRecord)
  {
    hide Follows;
    if n > 0 { AdmitError(s, used, n - 1); }
  }

  /** An accepted snapshot is refused after any one of its bytes is changed. */
  lemma OneByteRefused(s: seq<Byte>, at: nat, byte: Byte)
    requires |s| == SLOT_BYTES && Validate(s).Ok? && at < SLOT_BYTES && byte != s[at]
    ensures Validate(s[at := byte]) == Err(InvalidRecord)
  {
    hide Checksum, FromLittleEndian, AdmitAll;
    var t := s[at := byte];
    var field, changed := s[CHECKSUM_OFFSET..CHECKSUM_OFFSET + 4], t[CHECKSUM_OFFSET..CHECKSUM_OFFSET + 4];
    assert HeaderOk(s);
    if CHECKSUM_OFFSET <= at < CHECKSUM_OFFSET + 4 {
      ChecksumSkips(s, t);
      assert field[at - CHECKSUM_OFFSET] != changed[at - CHECKSUM_OFFSET];
      if FromLittleEndian(field) == FromLittleEndian(changed) { LittleEndianInjective(field, changed); }
    } else {
      assert field == changed;
      ChecksumSees(s, t, at);
    }
  }

  lemma ChecksumSkips(s: seq<Byte>, t: seq<Byte>)
    requires |s| == |t| && forall i :: 0 <= i < |s| && !(CHECKSUM_OFFSET <= i < CHECKSUM_OFFSET + 4) ==> s[i] == t[i]
    ensures Checksum(s) == Checksum(t)
  {
    HashAgrees(s, t, |s|);
  }

  lemma ChecksumSees(s: seq<Byte>, t: seq<Byte>, at: nat)
    requires at < |s| == |t| && s[at] != t[at] && !(CHECKSUM_OFFSET <= at < CHECKSUM_OFFSET + 4)
    requires forall i :: 0 <= i < |s| && i != at ==> s[i] == t[i]
    ensures Checksum(s) != Checksum(t)
  {
    HashDiffers(s, t, at, |s|);
  }

  // ----- the round trip -----

  /** The entry area of a slot holds this list. */
  predicate Holds(s: seq<Byte>, list: seq<Node>) {
    |s| == SLOT_BYTES && AllEncodable(list) && Fits(list) && s[HEADER..HEADER + Size(list)] == Entries(list)
  }

  /** A slice of a slice. */
  lemma Slice(s: seq<Byte>, from: nat, to: nat, low: nat, high: nat)
    requires from <= to <= |s| && low <= high <= to - from
    ensures s[from..to][low..high] == s[from + low..from + high]
  {
    var inner, outer := s[from..to][low..high], s[from + low..from + high];
    forall i | 0 <= i < high - low ensures inner[i] == outer[i] {
      assert inner[i] == s[from..to][low + i] == s[from + low + i];
    }
    assert inner == outer;
  }

  lemma {:induction false} EntriesPrefix(list: seq<Node>, n: nat)
    requires AllEncodable(list) && n <= |list|
    ensures Size(list[..n]) <= Size(list) && Entries(list)[..Size(list[..n])] == Entries(list[..n])
  {
    if n == |list| {
      assert list[..n] == list;
    } else {
      var shorter := list[..|list| - 1];
      assert shorter[..n] == list[..n];
      EntriesPrefix(shorter, n);
    }
  }

  /** Where entry `n` lies. */
  lemma EntryAt(s: seq<Byte>, list: seq<Node>, n: nat)
    requires Holds(s, list) && n < |list|
    ensures var at := HEADER + Size(list[..n]);
            at + EntrySize(list[n]) == HEADER + Size(list[..n + 1]) <= HEADER + Size(list)
            && s[at..at + EntrySize(list[n])] == EntryBytes(list[n])
  {
    hide EntryBytes, EntrySize, Entries, Size;
    var low, high := Size(list[..n]), Size(list[..n + 1]);
    EntriesPrefix(list, n);
    EntriesPrefix(list, n + 1);
    LastEntry(list[..n + 1]);
    assert list[..n + 1][..n] == list[..n];
    var all := Entries(list);
    assert all[..high][low..] == EntryBytes(list[n]);
    assert all[..high][low..] == all[low..high];
    Slice(s, HEADER, HEADER + Size(list), low, high);
  }

  lemma LastEntry(list: seq<Node>)
    requires AllEncodable(list) && list != []
    ensures var before := list[..|list| - 1];
            && Size(list) == Size(before) + EntrySize(list[|list| - 1])
            && Entries(list)[..Size(before)] == Entries(before)
            && Entries(list)[Size(before)..] == EntryBytes(list[|list| - 1])
  {
    hide EntryBytes, EntrySize;
  }

  /** Decoding at the start of an entry returns it and its end. */
  lemma DecodesEntry(s: seq<Byte>, at: nat, used: nat, n: Node)
    requires |s| == SLOT_BYTES && Encodable(n) && at + EntrySize(n) <= used <= SLOT_BYTES
    requires s[at..at + EntrySize(n)] == EntryBytes(n)
    ensures DecodeEntry(s, at, used) == Ok((n, at + EntrySize(n)))
  {
    hide EntryBytes, FromLittleEndian;
    EntryFields(n);
    var end, path := at + EntrySize(n), ENTRY_HEADER + |n.path|;
    assert s[at] == s[at..end][0] && s[at + 1] == s[at..end][1];
    Slice(s, at, end, 2, 4);
    Slice(s, at, end, ENTRY_HEADER, path);
    Slice(s, at, end, path, EntrySize(n));
    assert EntryBytes(n)[path..] == EntryBytes(n)[path..EntrySize(n)];
  }

  lemma EntryFields(n: Node)
    requires Encodable(n)
    ensures var bytes := EntryBytes(n);
            && bytes[0] == |n.path| && bytes[1] == KindCode(n.kind) && FromLittleEndian(bytes[2..4]) == |n.data|
            && bytes[ENTRY_HEADER..ENTRY_HEADER + |n.path|] == n.path && bytes[ENTRY_HEADER + |n.path|..] == n.data
  {
    assert Pow256(2) == 65536;
    LittleEndianRoundTrip(|n.data|, 2);
    assert EntryBytes(n)[2..4] == LittleEndian(|n.data|, 2);
  }

  /** Entry `n` is read where the entries before it end. */
  lemma DecodesAt(s: seq<Byte>, list: seq<Node>, n: nat)
    requires Holds(s, list) && n < |list|
    ensures DecodeEntry(s, HEADER + Size(list[..n]), HEADER + Size(list))
         == Ok((list[n], HEADER + Size(list[..n + 1])))
  {
    hide DecodeEntry, EntryBytes, EntrySize, Size, Entries;
    EntryAt(s, list, n);
    DecodesEntry(s, HEADER + Size(list[..n]), HEADER + Size(list), list[n]);
  }

  /** Walking a slot that holds a list returns the list, entry by entry, and ends where it ends. */
  lemma {:induction false} DecodesList(s: seq<Byte>, list: seq<Node>, n: nat)
    requires Holds(s, list) && n <= |list|
    ensures DecodeAll(s, HEADER + Size(list), n) == Ok((list[..n], HEADER + Size(list[..n])))
  {
    hide DecodeEntry, Holds, Size;
    if n == 0 {
      assert list[..0] == [];
      EmptyList();
    } else {
      DecodesList(s, list, n - 1);
      DecodesAt(s, list, n - 1);
      assert list[..n] == list[..n - 1] + [list[n - 1]];
    }
  }

  /** What an encoding and its published form record. */
  lemma EncodedArea(nodes: seq<Node>, generation: U64)
    requires AllEncodable(Users(nodes)) && Encode(nodes, generation).Ok?
    ensures var list := Users(nodes);
            var image := Encode(nodes, generation).value;
            forall s: seq<Byte> :: s in {image, Commit(image)} ==>
              Holds(s, list) && s[6] == |list| && Used(s) == HEADER + Size(list)
  {
    hide LittleEndian, FromLittleEndian, Checksum, Entries, Size, Users, Header, Commit, Image;
    var list := Users(nodes);
    var image := Encode(nodes, generation).value;
    ImageFields(list, |list|, generation, HEADER + Size(list));
    CommitFields(image);
    CommittedArea(image, HEADER + Size(list));
  }

  /** Whatever the encoder wrote, walking it from the header to the recorded length returns exactly the encoded
      nodes in order; publishing the slot changes none of that. */
  lemma EncodeRoundTrip(nodes: seq<Node>, generation: U64)
    requires AllEncodable(Users(nodes)) && Encode(nodes, generation).Ok?
    ensures var list := Users(nodes);
            var image := Encode(nodes, generation).value;
            forall s: seq<Byte> :: s in {image, Commit(image)} ==>
              && |s| == SLOT_BYTES && s[6] == |list| && Used(s) == HEADER + Size(list)
              && DecodeAll(s, Used(s), s[6]) == Ok((list, Used(s)))
  {
    hide DecodeAll, LittleEndian, FromLittleEndian, Checksum, Entries, Size, Users, Header, Commit, Image;
    var list := Users(nodes);
    var image := Encode(nodes, generation).value;
    EncodedArea(nodes, generation);
    assert list[..|list|] == list;
    DecodesList(image, list, |list|);
    DecodesList(Commit(image), list, |list|);
  }

  lemma ImageFields(list: seq<Node>, count: Byte, generation: U64, used: nat)
    requires AllEncodable(list) && Fits(list) && used <= SLOT_BYTES
    ensures var s := Image(list, count, generation, used);
            && s[..4] == MAGIC && FromLittleEndian(s[4..6]) == VERSION && s[6] == count
            && FromLittleEndian(s[8..16]) == generation && Used(s) == used
            && s[HEADER..HEADER + Size(list)] == Entries(list)
  {
    hide LittleEndian, FromLittleEndian, Entries;
    var s := Image(list, count, generation, used);
    Powers();
    LittleEndianRoundTrip(VERSION, 2);
    LittleEndianRoundTrip(generation, 8);
    LittleEndianRoundTrip(used, 4);
    assert s[4..6] == LittleEndian(VERSION, 2);
    assert s[8..16] == LittleEndian(generation, 8);
    assert s[16..20] == LittleEndian(used, 4);
    assert s[HEADER..HEADER + Size(list)] == Entries(list);
  }

  lemma Powers()
    ensures Pow256(2) == 0x1_0000 && Pow256(4) == MODULUS && Pow256(8) == U64_MAX + 1
  {
    assert Pow256(4) == MODULUS;
  }

  lemma CommitFields(image: seq<Byte>)
    requires |image| == SLOT_BYTES
    ensures var s := Commit(image);
            && s[..7] == image[..7] && s[7] == COMMITTED && s[8..20] == image[8..20] && s[24..] == image[24..]
            && s[8..16] == image[8..16] && s[4..6] == image[4..6] && s[16..20] == image[16..20]
            && Checksum(s) == FromLittleEndian(s[20..24])
  {
    hide LittleEndian, FromLittleEndian, Checksum;
    var marked := image[7 := COMMITTED];
    var s := Commit(image);
    ChecksumSkips(marked, s);
    Powers();
    LittleEndianRoundTrip(Checksum(marked), 4);
    assert s[20..24] == LittleEndian(Checksum(marked), 4);
    assert s[8..20] == image[8..20];
    assert s[8..16] == s[8..20][..8] && s[16..20] == s[8..20][8..];
    assert s[..7] == image[..7];
    assert s[4..6] == s[..7][4..6];
    assert s[24..] == image[24..];
  }

  /** Publishing leaves the entry area and the count alone. */
  lemma CommittedArea(image: seq<Byte>, end: nat)
    requires HEADER <= end <= |image| == SLOT_BYTES
    ensures Commit(image)[HEADER..end] == image[HEADER..end] && Commit(image)[6] == image[6]
  {
    hide Checksum, LittleEndian;
    assert Commit(image)[24..] == image[24..] by { CommitFields(image); }
    Slice(Commit(image), 24, SLOT_BYTES, HEADER - 24, end - 24);
    Slice(image, 24, SLOT_BYTES, HEADER - 24, end - 24);
    assert Commit(image)[24..SLOT_BYTES] == Commit(image)[24..];
    assert image[24..SLOT_BYTES] == image[24..];
  }

  // ----- acceptance -----

  /** Every entry may follow the ones before it. */
  predicate Admissible(list: seq<Node>) { forall i :: 0 <= i < |list| ==> Follows(list[..i], list[i]) }

  lemma {:induction false} AdmitsList(s: seq<Byte>, list: seq<Node>, n: nat)
    requires Holds(s, list) && n <= |list|
    ensures AdmitAll(s, HEADER + Size(list), n) ==
            if Admissible(list[..n]) then Ok((list[..n], HEADER + Size(list[..n]))) else Err(InvalidRecord)
  {
    hide DecodeEntry, Follows, Holds, Size, Admissible;
    if n == 0 {
      assert list[..0] == [];
      EmptyList();
    } else {
      AdmissibleStep(list, n);
      assert list[..n] == list[..n - 1] + [list[n - 1]];
      AdmitsList(s, list, n - 1);
      DecodesAt(s, list, n - 1);
    }
  }

  lemma EmptyList()
    ensures Size([]) == 0 && Admissible([])
  {
  }

  lemma AdmissibleStep(list: seq<Node>, n: nat)
    requires 0 < n <= |list|
    ensures Admissible(list[..n]) == (Admissible(list[..n - 1]) && Follows(list[..n - 1], list[n - 1]))
  {
    hide Follows;
    var now, before := list[..n], list[..n - 1];
    assert forall i :: 0 <= i < n ==> now[..i] == list[..i];
    assert forall i :: 0 <= i < n - 1 ==> before[..i] == list[..i];
    if Admissible(now) {
      forall i | 0 <= i < n - 1 ensures Follows(before[..i], before[i]) { assert Follows(now[..i], now[i]); }
      assert Follows(now[..n - 1], now[n - 1]);
    }
  }

  /** A published encoding is accepted, with its generation, exactly when it has at most thirty entries and each
      may follow the ones before it. */
  lemma AcceptedExactly(nodes: seq<Node>, generation: U64)
    requires AllEncodable(Users(nodes)) && Encode(nodes, generation).Ok?
    ensures Validate(Commit(Encode(nodes, generation).value)) ==
            if |Users(nodes)| <= MAX_NODES - 2 && Admissible(Users(nodes)) then Ok(generation) else Err(InvalidRecord)
  {
    hide AdmitAll, LittleEndian, FromLittleEndian, Checksum, Follows, Entries, Admissible, Users, Size, Commit, Image;
    var list := Users(nodes);
    var image := Encode(nodes, generation).value;
    var s := Commit(image);
    ImageFields(list, |list|, generation, HEADER + Size(list));
    CommitFields(image);
    assert list[..|list|] == list;
    assert s[..4] == s[..7][..4] == image[..4];
    CommittedArea(image, HEADER + Size(list));
    AdmitsList(s, list, |list|);
    Powers();
  }
}
