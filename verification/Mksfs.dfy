/** The block map of ht-mksfs/mksfs.c: block numbers handed out in order, files that reach their
    blocks through direct, indirect and double-indirect entries, and the free map. */
module Mksfs {
  import opened Common
  import opened Bits

  const NDIRECT: nat := 12
  const NENTRY: nat := 1024
  const L1: nat := NDIRECT + NENTRY
  const LN: nat := 32768
  const BLKBITS: nat := 32768
  const WORD_BITS: nat := 32
  const BLKN_ROOT: nat := 1
  const FIRST_FREEMAP: nat := 2

  /** struct cache_inode: its own block, the inode's block fields and the two cached index blocks. */
  datatype File = File(ino: nat, nblks: nat, direct: seq<nat>, indirect: nat, dbIndirect: nat, l1: Option<nat>,
      l2: Option<nat>)

  /** What an index block is for. */
  datatype Kind = Indirect | Double | Leaf(k: nat)

  type Blocks = map<nat, seq<nat>>
  type Owners = map<nat, (nat, Kind)>

  /** Block b is the index block of this kind of file f. */
  ghost predicate Has(blocks: Blocks, owner: Owners, b: nat, f: nat, kind: Kind) {
    b != 0 && b in blocks && |blocks[b]| == NENTRY && b in owner && owner[b] == (f, kind)
  }

  /** The block number behind file block i. */
  ghost function Lookup(file: File, blocks: Blocks, i: nat): nat {
    if i < NDIRECT then At(file.direct, i)
    else if i < L1 then At(Index(blocks, file.indirect), i - NDIRECT)
    else At(Index(blocks, At(Index(blocks, file.dbIndirect), (i - L1) / NENTRY)), (i - L1) % NENTRY)
  }

  ghost function At(s: seq<nat>, i: nat): nat {
    if i < |s| then s[i] else 0
  }

  ghost function Index(blocks: Blocks, b: nat): seq<nat> {
    if b in blocks then blocks[b] else []
  }

  /** Entry k of the double-indirect block is set once a file of n blocks reaches its leaf. */
  ghost predicate LeafOk(blocks: Blocks, owner: Owners, f: nat, b: nat, k: nat, n: nat) {
    (b != 0 <==> L1 + k * NENTRY < n) && (b != 0 ==> Has(blocks, owner, b, f, Leaf(k)))
  }

  /** The index blocks a file of n blocks has, and what its cache holds. */
  ghost predicate Shape(file: File, blocks: Blocks, owner: Owners, f: nat) {
    && |file.direct| == NDIRECT && file.nblks <= LN
    && (file.indirect != 0 <==> file.nblks > NDIRECT)
    && (file.indirect != 0 ==> Has(blocks, owner, file.indirect, f, Indirect))
    && (file.dbIndirect != 0 <==> file.nblks > L1)
    && (file.dbIndirect != 0 ==> Has(blocks, owner, file.dbIndirect, f, Double))
    && (file.dbIndirect != 0 ==> forall k: nat :: k < NENTRY ==>
          LeafOk(blocks, owner, f, At(Index(blocks, file.dbIndirect), k), k, file.nblks))
    && file.l2 == (if file.nblks <= L1 then None else Some(file.dbIndirect))
    && file.l1 == (if file.nblks <= NDIRECT then None else if file.nblks <= L1 then Some(file.indirect)
                   else Some(At(Index(blocks, file.dbIndirect), (file.nblks - 1 - L1) / NENTRY)))
  }

  /** File block i is the i-th block appended. */
  ghost predicate Holds(file: File, blocks: Blocks, content: seq<nat>) {
    |content| == file.nblks && forall i: nat :: i < file.nblks ==> Lookup(file, blocks, i) == content[i]
  }

  ghost predicate FileOk(file: File, blocks: Blocks, owner: Owners, f: nat, content: seq<nat>) {
    Shape(file, blocks, owner, f) && Holds(file, blocks, content)
  }

  ghost predicate ImageOk(nextIno: nat, files: seq<File>, blocks: Blocks, owner: Owners, content: seq<seq<nat>>) {
    && |content| == |files| && blocks.Keys == owner.Keys && (forall b :: b in blocks ==> b < nextIno)
    && (forall f: nat :: f < |files| ==> FileOk(files[f], blocks, owner, f, content[f]))
  }

  /** What a block that is no index block is for: the inode of a file, or its i-th block. */
  datatype Use = Inode(f: nat) | Data(f: nat, i: nat)

  /** Every block handed out has exactly one use: it is an index block, an inode, or one block of
      one file.  Block numbers from `first` to next_ino have been handed out, besides the root's. */
  ghost predicate Accounted(first: nat, nextIno: nat, files: seq<File>, content: seq<seq<nat>>, blocks: Blocks,
      use: map<nat, Use>) {
    && |content| == |files| && use.Keys !! blocks.Keys
    && (forall b: nat :: b in use.Keys + blocks.Keys <==> b == BLKN_ROOT || first <= b < nextIno)
    && (forall f: nat :: f < |files| ==> files[f].ino in use && use[files[f].ino] == Inode(f))
    && (forall f: nat, i: nat ::
        f < |files| && i < |content[f]| ==> content[f][i] in use && use[content[f][i]] == Data(f, i))
    && (forall b :: b in use && use[b].Inode? ==> use[b].f < |files| && files[use[b].f].ino == b)
    && (forall b :: b in use && use[b].Data? ==>
        use[b].f < |files| && use[b].i < |content[use[b].f]| && content[use[b].f][use[b].i] == b)
  }

  /** No block serves two purposes. */
  lemma {:induction false} BlocksDistinct(first: nat, nextIno: nat, files: seq<File>, content: seq<seq<nat>>,
                                          blocks: Blocks, use: map<nat, Use>, f: nat, i: nat, g: nat, j: nat)
    requires Accounted(first, nextIno, files, content, blocks, use) && f < |files| && g < |files|
    ensures i < |content[f]| && j < |content[g]| && content[f][i] == content[g][j] ==> f == g && i == j
    ensures i < |content[f]| ==> content[f][i] != files[g].ino && content[f][i] !in blocks
    ensures files[f].ino == files[g].ino ==> f == g
    ensures files[f].ino !in blocks
  {
    assert use[files[f].ino] == Inode(f) && use[files[g].ino] == Inode(g);
    if i < |content[f]| {
      assert use[content[f][i]] == Data(f, i);
    }
  }

  lemma {:induction false} BlockAdded(first: nat, next: nat, next': nat, files: seq<File>, files': seq<File>,
      content: seq<seq<nat>>,
                                      blocks: Blocks, blocks': Blocks, use: map<nat, Use>, f: nat)
    requires Accounted(first, next, files, content, blocks, use) && BLKN_ROOT < first <= next < next'
             && f < |files| == |files'|
    requires forall g :: 0 <= g < |files| ==> files'[g].ino == files[g].ino
    requires forall b: nat :: b in blocks' <==> b in blocks || next + 1 <= b < next'
    ensures |content| == |files|
    ensures Accounted(first, next', files', content[f := content[f] + [next]], blocks',
              use[next := Data(f, |content[f]|)])
  {
    assert next !in use.Keys + blocks.Keys;
    var content', use' := content[f := content[f] + [next]], use[next := Data(f, |content[f]|)];
    forall b: nat ensures b in use'.Keys + blocks'.Keys <==> b == BLKN_ROOT || first <= b < next' {
      assert b in use.Keys + blocks.Keys <==> b == BLKN_ROOT || first <= b < next;
    }
    forall b | b in use'.Keys ensures b !in blocks' {
      assert b != next ==> b in use.Keys + blocks.Keys;
    }
  }

  lemma {:induction false} InodeAdded(first: nat, next: nat, files: seq<File>, file: File, content: seq<seq<nat>>,
      blocks: Blocks, use: map<nat, Use>)
    requires Accounted(first, next, files, content, blocks, use) && BLKN_ROOT < first <= next && file.ino == next
    ensures Accounted(first, next + 1, files + [file], content + [[]], blocks, use[next := Inode(|files|)])
  {
    assert next !in use.Keys + blocks.Keys;
    var use' := use[next := Inode(|files|)];
    forall b: nat ensures b in use'.Keys + blocks.Keys <==> b == BLKN_ROOT || first <= b < next + 1 {
      assert b in use.Keys + blocks.Keys <==> b == BLKN_ROOT || first <= b < next;
    }
  }

  ghost predicate SameInos(files: seq<File>, files': seq<File>) {
    |files'| == |files| && forall g :: 0 <= g < |files| ==> files'[g].ino == files[g].ino
  }

  /** Index blocks that the block after n others needs anew. */
  ghost function NewIndex(n: nat): nat {
    if n == NDIRECT then 1 else if n == L1 then 2 else if n > L1 && (n - L1) % NENTRY == 0 then 1 else 0
  }

  // One step at a time.

  /** Changing or adding blocks that are not this file's changes nothing for it. */
  lemma {:induction false} Others(file: File, blocks: Blocks, owner: Owners, blocks': Blocks, owner': Owners, f: nat,
      content: seq<nat>)
    requires FileOk(file, blocks, owner, f, content)
    requires forall b :: b in blocks && b in owner && owner[b].0 == f ==> b in blocks' && blocks'[b] == blocks[b]
    requires forall b :: b in owner ==> b in owner' && owner'[b] == owner[b]
    ensures FileOk(file, blocks', owner', f, content)
  {
    if file.indirect != 0 {
      assert Index(blocks', file.indirect) == Index(blocks, file.indirect);
    }
    if file.dbIndirect != 0 {
      assert Index(blocks', file.dbIndirect) == Index(blocks, file.dbIndirect);
      forall k: nat | k < NENTRY && At(Index(blocks, file.dbIndirect), k) != 0
        ensures Index(blocks', At(Index(blocks, file.dbIndirect), k)) ==
                Index(blocks, At(Index(blocks, file.dbIndirect), k))
      {
        assert Has(blocks, owner, At(Index(blocks, file.dbIndirect), k), f, Leaf(k));
      }
    }
    forall i: nat | i < file.nblks ensures Lookup(file, blocks', i) == Lookup(file, blocks, i) {
      if i >= L1 {
        assert L1 + (i - L1) / NENTRY * NENTRY <= i;
      }
    }
  }

  /** The next block is a direct one. */
  lemma {:induction false} AppendDirect(file: File, blocks: Blocks, owner: Owners, f: nat, content: seq<nat>, ino: nat)
    requires FileOk(file, blocks, owner, f, content) && file.nblks < NDIRECT
    ensures FileOk(file.(direct := file.direct[file.nblks := ino], nblks := file.nblks + 1), blocks, owner, f,
              content + [ino])
  {
  }

  /** The next block goes through the indirect block, which is new for the first one. */
  lemma {:induction false} AppendIndirect(file: File, blocks: Blocks, owner: Owners, f: nat, content: seq<nat>,
      ino: nat, b: nat, data: seq<nat>)
    requires FileOk(file, blocks, owner, f, content) && NDIRECT <= file.nblks < L1 && |data| == NENTRY && b != 0
    requires if file.indirect == 0 then b !in blocks && b !in owner else b == file.indirect && data == blocks[b]
    ensures var blocks' := blocks[b := data[file.nblks - NDIRECT := ino]];
            FileOk(file.(indirect := b, l1 := Some(b), nblks := file.nblks + 1), blocks', owner[b := (f, Indirect)],
                f, content + [ino])
  {
    var n := file.nblks - NDIRECT;
    var blocks' := blocks[b := data[n := ino]];
    var file' := file.(indirect := b, l1 := Some(b), nblks := file.nblks + 1);
    forall i: nat | i < file'.nblks ensures Lookup(file', blocks', i) == (content + [ino])[i] {
      if NDIRECT <= i < file.nblks {
        assert Lookup(file, blocks, i) == content[i];
      }
    }
  }

  /** The next block goes through the double-indirect block; it, the leaf, or both may be new. */
  lemma {:induction false} AppendDouble(file: File, blocks: Blocks, owner: Owners, f: nat, content: seq<nat>, ino: nat,
                                        d: nat, data2: seq<nat>, e: nat, data1: seq<nat>)
    requires FileOk(file, blocks, owner, f, content) && L1 <= file.nblks < LN && |data2| == |data1| == NENTRY
             && d != 0 && e != 0 && d != e
    requires if file.dbIndirect == 0 then d !in blocks && d !in owner && forall k :: 0 <= k < NENTRY ==> data2[k] == 0
             else d == file.dbIndirect && data2 == blocks[d]
    requires var k := (file.nblks - L1) / NENTRY;
             if data2[k] == 0 then e !in blocks && e !in owner else e == data2[k] && e in blocks && data1 == blocks[e]
    ensures var k, j := (file.nblks - L1) / NENTRY, (file.nblks - L1) % NENTRY;
            FileOk(file.(dbIndirect := d, l2 := Some(d), l1 := Some(e), nblks := file.nblks + 1),
                   blocks[d := data2[k := e]][e := data1[j := ino]], owner[d := (f, Double)][e := (f, Leaf(k))], f,
                     content + [ino])
  {
    hide Has, Holds;
    DoubleShape(file, blocks, owner, f, d, data2, e, data1, ino);
    DoubleHolds(file, blocks, owner, f, content, ino, d, data2, e, data1);
  }

  lemma {:induction false} DoubleShape(file: File, blocks: Blocks, owner: Owners, f: nat, d: nat, data2: seq<nat>,
      e: nat, data1: seq<nat>, ino: nat)
    requires Shape(file, blocks, owner, f) && L1 <= file.nblks < LN && |data2| == |data1| == NENTRY && d != 0
             && e != 0 && d != e
    requires if file.dbIndirect == 0 then d !in blocks && d !in owner && forall k :: 0 <= k < NENTRY ==> data2[k] == 0
             else d == file.dbIndirect && data2 == blocks[d]
    requires var k := (file.nblks - L1) / NENTRY;
             if data2[k] == 0 then e !in blocks && e !in owner else e == data2[k] && e in blocks && data1 == blocks[e]
    ensures var k, j := (file.nblks - L1) / NENTRY, (file.nblks - L1) % NENTRY;
            Shape(file.(dbIndirect := d, l2 := Some(d), l1 := Some(e), nblks := file.nblks + 1),
                  blocks[d := data2[k := e]][e := data1[j := ino]], owner[d := (f, Double)][e := (f, Leaf(k))], f)
  {
    var k, j := (file.nblks - L1) / NENTRY, (file.nblks - L1) % NENTRY;
    var blocks', owner' := blocks[d := data2[k := e]][e := data1[j := ino]], owner[d := (f, Double)][e := (f, Leaf(k))];
    assert k < NENTRY && L1 + k * NENTRY <= file.nblks < L1 + k * NENTRY + NENTRY;
    assert Has(blocks, owner, file.indirect, f, Indirect);
    if file.dbIndirect != 0 {
      assert LeafOk(blocks, owner, f, At(Index(blocks, file.dbIndirect), k), k, file.nblks);
    }
    assert file.indirect != d && file.indirect != e;
    assert Index(blocks', d) == data2[k := e];
    forall m: nat | m < NENTRY ensures LeafOk(blocks', owner', f, At(Index(blocks', d), m), m, file.nblks + 1) {
      if m != k {
        if file.dbIndirect != 0 {
          assert LeafOk(blocks, owner, f, At(Index(blocks, file.dbIndirect), m), m, file.nblks);
          assert LeafOk(blocks, owner, f, At(Index(blocks, file.dbIndirect), k), k, file.nblks);
        } else {
          assert file.nblks == L1 && data2[m] == 0;
        }
      }
    }
  }

  lemma {:induction false} DoubleHolds(file: File, blocks: Blocks, owner: Owners, f: nat, content: seq<nat>, ino: nat,
                                       d: nat, data2: seq<nat>, e: nat, data1: seq<nat>)
    requires FileOk(file, blocks, owner, f, content) && L1 <= file.nblks < LN && |data2| == |data1| == NENTRY
             && d != 0 && e != 0 && d != e
    requires if file.dbIndirect == 0 then d !in blocks && d !in owner && forall k :: 0 <= k < NENTRY ==> data2[k] == 0
             else d == file.dbIndirect && data2 == blocks[d]
    requires var k := (file.nblks - L1) / NENTRY;
             if data2[k] == 0 then e !in blocks && e !in owner else e == data2[k] && e in blocks && data1 == blocks[e]
    ensures var k, j := (file.nblks - L1) / NENTRY, (file.nblks - L1) % NENTRY;
            Holds(file.(dbIndirect := d, l2 := Some(d), l1 := Some(e), nblks := file.nblks + 1),
                  blocks[d := data2[k := e]][e := data1[j := ino]], content + [ino])
  {
    var k, j := (file.nblks - L1) / NENTRY, (file.nblks - L1) % NENTRY;
    var blocks' := blocks[d := data2[k := e]][e := data1[j := ino]];
    var file' := file.(dbIndirect := d, l2 := Some(d), l1 := Some(e), nblks := file.nblks + 1);
    assert Has(blocks, owner, file.indirect, f, Indirect);
    if file.dbIndirect != 0 {
      assert LeafOk(blocks, owner, f, At(Index(blocks, file.dbIndirect), k), k, file.nblks);
    }
    forall i: nat | i < file'.nblks ensures Lookup(file', blocks', i) == (content + [ino])[i] {
      if i < file.nblks {
        assert Lookup(file, blocks, i) == content[i];
        if i >= L1 {
          SameLeaf(file, blocks, owner, f, i, d, data2, e, k);
        }
      }
    }
  }

  /** An earlier block behind the double-indirect block: its leaf exists, and either it is another
      leaf than the one being written, or another entry of that one. */
  lemma {:induction false} SameLeaf(file: File, blocks: Blocks, owner: Owners, f: nat, i: nat, d: nat,
      data2: seq<nat>, e: nat, k: nat)
    requires Shape(file, blocks, owner, f) && L1 <= i < file.nblks < LN && k == (file.nblks - L1) / NENTRY
    requires d == file.dbIndirect && d in blocks && data2 == blocks[d] && |data2| == NENTRY
    requires if data2[k] == 0 then e !in blocks else e == data2[k]
    ensures var m := (i - L1) / NENTRY;
            && m <= k && data2[m] in blocks && data2[m] != d && |blocks[data2[m]]| == NENTRY
            && (if m == k then data2[k] == e && (i - L1) % NENTRY != (file.nblks - L1) % NENTRY else data2[m] != e)
  {
    var m := (i - L1) / NENTRY;
    assert L1 + m * NENTRY <= i;
    assert Has(blocks, owner, At(Index(blocks, d), m), f, Leaf(m));
    if m != k && data2[k] != 0 {
      assert Has(blocks, owner, At(Index(blocks, d), k), f, Leaf(k));
    }
  }

  class Image {
    const ninos: nat
    var nextIno: nat
    var unused: nat
    var files: seq<File>
    var blocks: Blocks
    ghost var owner: Owners
    ghost var content: seq<seq<nat>>
    ghost var use: map<nat, Use>

    /** The first block behind the free map. */
    function First(): nat {
      FIRST_FREEMAP + (ninos + BLKBITS - 1) / BLKBITS
    }

    /** Every block handed out so far has exactly one use. */
    ghost predicate Complete()
      reads this
    {
      First() <= nextIno && Accounted(First(), nextIno, files, content, blocks, use)
    }

    /** Block numbers below next_ino are in use, the others counted as unused; every file finds its
        blocks; no index block belongs to two files. */
    ghost predicate Valid()
      reads this
    {
      nextIno + unused == ninos && 0 < nextIno && ImageOk(nextIno, files, blocks, owner, content)
    }

    /** create_sfs for an image of n blocks: the super block, the root inode and the free map come
        first; the root directory is empty. */
    constructor (n: nat)
      requires FIRST_FREEMAP + (n + BLKBITS - 1) / BLKBITS < n
      ensures Valid() && Complete() && ninos == n && nextIno == First() && content == [[]] && files[0].ino == BLKN_ROOT
    {
      ninos := n;
      nextIno := FIRST_FREEMAP + (n + BLKBITS - 1) / BLKBITS;
      unused := n - (FIRST_FREEMAP + (n + BLKBITS - 1) / BLKBITS);
      files := [File(BLKN_ROOT, 0, seq(NDIRECT, _ => 0), 0, 0, None, None)];
      blocks, owner, content, use := map[], map[], [[]], map[BLKN_ROOT := Inode(0)];
    }

    /** sfs_alloc_ino: block numbers are handed out once each; None where the source gives up. */
    method AllocIno() returns (ino: Option<nat>)
      requires Valid()
      modifies this`nextIno, this`unused
      ensures Valid() && ino == if old(nextIno) < ninos then Some(old(nextIno)) else None
      ensures nextIno == old(nextIno) + (if ino.Some? then 1 else 0)
    {
      hide ImageOk;
      if nextIno < ninos {
        MoreInos(nextIno, nextIno + 1, files, blocks, owner, content);
        unused := unused - 1;
        nextIno := nextIno + 1;
        return Some(nextIno - 1);
      }
      return None;
    }

    /** alloc_cache_inode: a file without blocks, in a block of its own; None where the image is full. */
    method NewFile() returns (f: Option<nat>)
      requires Valid() && Complete()
      modifies this`files, this`content, this`nextIno, this`unused, this`use
      ensures Valid() && Complete() && (f.None? <==> old(unused) == 0) && (f.None? ==> content == old(content))
      ensures f.Some? ==> f.value == |old(files)| && content == old(content) + [[]] && nextIno == old(nextIno) + 1
    {
      hide ImageOk, Accounted;
      var ino := AllocIno();
      if ino.None? {
        return None;
      }
      var file := File(ino.value, 0, seq(NDIRECT, _ => 0), 0, 0, None, None);
      InodeAdded(First(), ino.value, files, file, content, blocks, use);
      EmptyFile(nextIno, files, blocks, owner, content, file);
      f := Some(|files|);
      use := use[ino.value := Inode(|files|)];
      files := files + [file];
      content := content + [[]];
    }

    /** sfs_alloc_ino for the contents and __append_block, as open_file does for each block it reads:
        the file grows by a block that nothing else uses. */
    method AddBlock(f: nat) returns (ino: Option<nat>)
      requires Valid() && Complete() && f < |files| == |content|
      modifies this
      ensures ino.None? <==>
              old(unused) == 0 || old(files)[f].nblks >= LN || NewIndex(old(files)[f].nblks) > old(unused) - 1
      ensures ino.Some? ==> Valid() && Complete() && |files| == |old(files)| && ino.value == old(nextIno)
      ensures ino.Some? ==> content == old(content)[f := old(content)[f] + [ino.value]]
    {
      hide ImageOk, Accounted;
      ino := AllocIno();
      if ino.Some? {
        ghost var files0, content0, blocks0 := files, content, blocks;
        var ok := AppendBlock(f, ino.value);
        if !ok {
          return None;
        }
        BlockAdded(First(), ino.value, nextIno, files0, files, content0, blocks0, blocks, use, f);
        use := use[ino.value := Data(f, |content0[f]|)];
      }
    }

    /** update_cache: a new zeroed block for a missing entry; otherwise the cached block is already
        the right one, so the search is never needed. */
    method UpdateCache(cached: Option<nat>, ino: nat) returns (b: Option<nat>, data: seq<nat>)
      requires Valid() && (ino != 0 ==>
                 cached == Some(ino) && ino in blocks && |blocks[ino]| == NENTRY && ino < nextIno)
      modifies this`nextIno, this`unused
      ensures Valid() && nextIno >= old(nextIno) && (b.Some? ==> |data| == NENTRY && 0 < b.value < nextIno)
      ensures b.None? <==> ino == 0 && old(unused) == 0
      ensures unused == old(unused) - (if ino == 0 && b.Some? then 1 else 0)
      ensures ino != 0 ==> b == Some(ino) && data == blocks[ino]
      ensures ino == 0 && b.Some? ==> b.value == old(nextIno) && forall k :: 0 <= k < NENTRY ==> data[k] == 0
    {
      hide ImageOk;
      if ino == 0 {
        b := AllocIno();
        data := seq(NENTRY, _ => 0);
      } else {
        b, data := cached, blocks[ino];
      }
    }

    /** __append_block: the block becomes the file's last one, and no other file changes.  False
        where the source gives up: the file is too big, or the image is full. */
    method AppendBlock(f: nat, ino: nat) returns (ok: bool)
      requires Valid() && f < |files|
      modifies this
      ensures nextIno + unused == ninos && |content| == |files| == |old(content)|
      ensures ok ==> Valid() && content == old(content)[f := old(content)[f] + [ino]]
      ensures ok <==> old(files)[f].nblks < LN && NewIndex(old(files)[f].nblks) <= old(unused)
      ensures SameInos(old(files), files) && use == old(use) && old(nextIno) <= nextIno
      ensures ok ==> forall b: nat :: b in blocks <==> b in old(blocks) || old(nextIno) <= b < nextIno
    {
      hide FileOk, ImageOk;
      OneImageFile(nextIno, files, blocks, owner, content, f);
      var file := files[f];
      var nblks := file.nblks;
      if nblks >= LN {
        return false;
      }
      FileShape(file, blocks, owner, f, content[f]);
      if nblks < NDIRECT {
        AppendDirect(file, blocks, owner, f, content[f], ino);
        var file' := file.(direct := file.direct[nblks := ino], nblks := nblks + 1);
        OneFile(nextIno, nextIno, files, blocks, owner, blocks, owner, f, content, file', content[f] + [ino]);
        files := files[f := file'];
        content := content[f := content[f] + [ino]];
        return true;
      }
      if nblks < L1 {
        ok := AppendL1(f, ino);
      } else {
        ok := AppendL2(f, ino);
      }
    }

    /** __append_block through the indirect block. */
    method AppendL1(f: nat, ino: nat) returns (ok: bool)
      requires Valid() && f < |files| == |content| && NDIRECT <= files[f].nblks < L1
      modifies this
      ensures nextIno + unused == ninos && |content| == |files| == |old(content)|
      ensures ok ==> Valid() && content == old(content)[f := old(content)[f] + [ino]]
      ensures ok <==> NewIndex(old(files)[f].nblks) <= old(unused)
      ensures SameInos(old(files), files) && use == old(use) && old(nextIno) <= nextIno
      ensures ok ==> forall b: nat :: b in blocks <==> b in old(blocks) || old(nextIno) <= b < nextIno
    {
      hide FileOk, ImageOk;
      OneImageFile(nextIno, files, blocks, owner, content, f);
      var file := files[f];
      FileShape(file, blocks, owner, f, content[f]);
      ghost var next0 := nextIno;
      var b, data := UpdateCache(file.l1, file.indirect);
      if b.None? {
        return false;
      }
      var n := file.nblks - NDIRECT;
      var blocks' := blocks[b.value := data[n := ino]];
      ghost var owner' := owner[b.value := (f, Indirect)];
      var file' := file.(indirect := b.value, l1 := b, nblks := file.nblks + 1);
      AppendIndirect(file, blocks, owner, f, content[f], ino, b.value, data);
      OneFile(next0, nextIno, files, blocks, owner, blocks', owner', f, content, file', content[f] + [ino]);
      files := files[f := file'];
      content := content[f := content[f] + [ino]];
      blocks, owner := blocks', owner';
      return true;
    }

    /** __append_block through the double-indirect block. */
    method AppendL2(f: nat, ino: nat) returns (ok: bool)
      requires Valid() && f < |files| == |content| && L1 <= files[f].nblks < LN
      modifies this
      ensures nextIno + unused == ninos && |content| == |files| == |old(content)|
      ensures ok ==> Valid() && content == old(content)[f := old(content)[f] + [ino]]
      ensures ok <==> NewIndex(old(files)[f].nblks) <= old(unused)
      ensures SameInos(old(files), files) && use == old(use) && old(nextIno) <= nextIno
      ensures ok ==> forall b: nat :: b in blocks <==> b in old(blocks) || old(nextIno) <= b < nextIno
    {
      hide FileOk, ImageOk;
      OneImageFile(nextIno, files, blocks, owner, content, f);
      var file := files[f];
      FileShape(file, blocks, owner, f, content[f]);
      var b2, data2 := UpdateCache(file.l2, file.dbIndirect);
      if b2.None? {
        return false;
      }
      var k := (file.nblks - L1) / NENTRY;
      LeafCached(file, blocks, owner, f, content[f], data2);
      var b1, data1 := UpdateCache(file.l1, data2[k]);
      if b1.None? {
        return false;
      }
      SetLeaf(f, ino, b2.value, data2, b1.value, data1);
      return true;
    }

    /** The writes of __append_block behind the double-indirect block, once both index blocks are there. */
    method SetLeaf(f: nat, ino: nat, d: nat, data2: seq<nat>, e: nat, data1: seq<nat>)
      requires Valid() && f < |files| == |content| && L1 <= files[f].nblks < LN
      requires |data2| == |data1| == NENTRY && 0 < d < nextIno && 0 < e < nextIno && d != e
      requires var file := files[f];
               && (if file.dbIndirect == 0 then d !in blocks && forall k :: 0 <= k < NENTRY ==> data2[k] == 0
                   else d == file.dbIndirect && d in blocks && data2 == blocks[d])
               && var k := (file.nblks - L1) / NENTRY;
                  if data2[k] == 0 then e !in blocks else e == data2[k] && e in blocks && data1 == blocks[e]
      modifies this`files, this`content, this`blocks, this`owner
      ensures Valid() && SameInos(old(files), files) && content == old(content)[f := old(content)[f] + [ino]]
      ensures blocks.Keys == old(blocks).Keys + {d, e}
    {
      hide FileOk, ImageOk;
      LeafSet(nextIno, files, blocks, owner, content, f, ino, d, data2, e, data1);
      var file := files[f];
      var k, j := (file.nblks - L1) / NENTRY, (file.nblks - L1) % NENTRY;
      blocks := blocks[d := data2[k := e]][e := data1[j := ino]];
      owner := owner[d := (f, Double)][e := (f, Leaf(k))];
      files := files[f := file.(dbIndirect := d, l2 := Some(d), l1 := Some(e), nblks := file.nblks + 1)];
      content := content[f := content[f] + [ino]];
    }

    /** The bits of one block of the free map: exactly those from start up to end. */
    static method SetBits(start: nat, end: nat) returns (data: seq<nat>)
      requires end <= BLKBITS
      ensures |data| == NENTRY && forall i: nat :: i < BLKBITS ==> (BitOf(data, i) <==> start <= i < end)
    {
      hide BitOf;
      data := seq(NENTRY, _ => 0);
      NoneSet(data);
      var j := start;
      while j < end
        invariant start <= j && |data| == NENTRY
        invariant forall i: nat :: i < BLKBITS ==> (BitOf(data, i) <==> start <= i < j && i < end)
      {
        ghost var before := data;
        data := data[j / WORD_BITS := Or(data[j / WORD_BITS], Pow2(j % WORD_BITS))];
        SetBit(before, data, j);
        j := j + 1;
      }
    }

    /** The free-map loop of close_sfs: bit b is set exactly when block b is unused. */
    method FreeMap() returns (maps: seq<seq<nat>>)
      requires Valid()
      ensures |maps| == (ninos + BLKBITS - 1) / BLKBITS
      ensures forall t: nat, j: nat ::
              t < |maps| && j < BLKBITS ==> (BitOf(maps[t], j) <==> nextIno <= t * BLKBITS + j < ninos)
    {
      hide ImageOk, BitOf;
      maps := [];
      var i := 0;
      while i < ninos
        invariant i == |maps| * BLKBITS && |maps| <= (ninos + BLKBITS - 1) / BLKBITS
        invariant forall t: nat, j: nat ::
                  t < |maps| && j < BLKBITS ==> (BitOf(maps[t], j) <==> nextIno <= t * BLKBITS + j < ninos)
        decreases ninos - i
      {
        var start, end := 0, 0;
        if i + BLKBITS > nextIno {
          end := BLKBITS;
          if i < nextIno {
            start := nextIno - i;
          }
          if i + BLKBITS > ninos {
            end := ninos - i;
          }
        }
        var data := SetBits(start, end);
        maps := maps + [data];
        i := i + BLKBITS;
      }
    }
  }

  /** Bit j of a block of 32-bit words. */
  ghost predicate BitOf(data: seq<nat>, j: nat) {
    j / WORD_BITS < |data| && Bit(data[j / WORD_BITS], j % WORD_BITS)
  }

  lemma {:induction false} NoneSet(data: seq<nat>)
    requires |data| == NENTRY && forall k :: 0 <= k < NENTRY ==> data[k] == 0
    ensures forall j: nat :: j < BLKBITS ==> !BitOf(data, j)
  {
    forall j: nat | j < BLKBITS ensures !BitOf(data, j) {
      ZeroBit(j % WORD_BITS);
    }
  }

  lemma {:induction false} SetBit(data: seq<nat>, data': seq<nat>, j: nat)
    requires |data| == NENTRY && j < BLKBITS
             && data' == data[j / WORD_BITS := Or(data[j / WORD_BITS], Pow2(j % WORD_BITS))]
    ensures forall i: nat :: i < BLKBITS ==> (BitOf(data', i) <==> BitOf(data, i) || i == j)
  {
    hide Or, Bit;
    forall i: nat | i < BLKBITS ensures BitOf(data', i) <==> BitOf(data, i) || i == j {
      OrBit(data[j / WORD_BITS], j % WORD_BITS, i % WORD_BITS);
    }
  }

  /** The free map has as many bits set as the super block counts unused blocks. */
  lemma {:induction false} FreeMapCount(maps: seq<seq<nat>>, next: nat, ninos: nat, unused: nat)
    requires next + unused == ninos && |maps| == (ninos + BLKBITS - 1) / BLKBITS
    requires forall t: nat, j: nat ::
             t < |maps| && j < BLKBITS ==> (BitOf(maps[t], j) <==> next <= t * BLKBITS + j < ninos)
    ensures |set b: nat | b < |maps| * BLKBITS && BitOf(maps[b / BLKBITS], b % BLKBITS)| == unused
  {
    hide BitOf;
    var all := set b: nat | b < |maps| * BLKBITS && BitOf(maps[b / BLKBITS], b % BLKBITS);
    forall b: nat ensures b in all <==> next <= b < next + unused {
      if b < |maps| * BLKBITS {
        assert BitOf(maps[b / BLKBITS], b % BLKBITS) <==> next <= b / BLKBITS * BLKBITS + b % BLKBITS < ninos;
      }
    }
    RangeCard(all, next, unused);
  }

  lemma {:induction false} FileShape(file: File, blocks: Blocks, owner: Owners, f: nat, content: seq<nat>)
    requires FileOk(file, blocks, owner, f, content)
    ensures |file.direct| == NDIRECT && (file.nblks <= NDIRECT <==> file.indirect == 0)
            && (file.nblks <= L1 <==> file.dbIndirect == 0)
    ensures file.indirect != 0 ==>
            file.indirect in blocks && |blocks[file.indirect]| == NENTRY && file.indirect in owner
              && owner[file.indirect] == (f, Indirect)
    ensures file.dbIndirect != 0 ==>
              && file.dbIndirect in blocks && |blocks[file.dbIndirect]| == NENTRY && file.dbIndirect in owner
              && owner[file.dbIndirect] == (f, Double)
              && file.l2 == Some(file.dbIndirect)
    ensures NDIRECT < file.nblks <= L1 ==> file.l1 == Some(file.indirect)
  {
  }

  /** The cached leaf is the one the next block belongs to, unless that leaf is still missing. */
  lemma {:induction false} LeafCached(file: File, blocks: Blocks, owner: Owners, f: nat, content: seq<nat>,
      data2: seq<nat>)
    requires FileOk(file, blocks, owner, f, content) && L1 <= file.nblks < LN && |data2| == NENTRY
    requires if file.dbIndirect == 0
             then forall k :: 0 <= k < NENTRY ==> data2[k] == 0 else data2 == Index(blocks, file.dbIndirect)
    ensures var k := (file.nblks - L1) / NENTRY;
            && k < NENTRY && (data2[k] == 0 <==> (file.nblks - L1) % NENTRY == 0)
            && (data2[k] != 0 ==>
                  && file.l1 == Some(data2[k]) && data2[k] in blocks && |blocks[data2[k]]| == NENTRY
                  && data2[k] != file.dbIndirect
                  && data2[k] in owner && owner[data2[k]] == (f, Leaf(k)))
  {
    var k := (file.nblks - L1) / NENTRY;
    if file.dbIndirect != 0 {
      assert LeafOk(blocks, owner, f, At(Index(blocks, file.dbIndirect), k), k, file.nblks);
    }
    if data2[k] != 0 {
      assert (file.nblks - 1 - L1) / NENTRY == k;
    }
  }

  /** One file changes, and only its own index blocks with it. */
  lemma {:induction false} OneFile(nextIno: nat, nextIno': nat, files: seq<File>, blocks: Blocks, owner: Owners,
      blocks': Blocks, owner': Owners,
                                   f: nat, content: seq<seq<nat>>, file: File, c: seq<nat>)
    requires ImageOk(nextIno, files, blocks, owner, content) && f < |files| && |content| == |files|
             && nextIno <= nextIno'
    requires FileOk(file, blocks', owner', f, c) && blocks'.Keys == owner'.Keys
             && (forall b :: b in blocks' ==> b < nextIno')
    requires forall b :: b in blocks && b in owner && owner[b].0 != f ==> b in blocks' && blocks'[b] == blocks[b]
    requires forall b :: b in owner ==> b in owner' && owner'[b] == owner[b]
    ensures ImageOk(nextIno', files[f := file], blocks', owner', content[f := c])
  {
    hide FileOk;
    forall g: nat | g < |files| && g != f ensures FileOk(files[g], blocks', owner', g, content[g]) {
      Others(files[g], blocks, owner, blocks', owner', g, content[g]);
    }
  }

  lemma {:induction false} LeafSet(nextIno: nat, files: seq<File>, blocks: Blocks, owner: Owners,
      content: seq<seq<nat>>,
                                   f: nat, ino: nat, d: nat, data2: seq<nat>, e: nat, data1: seq<nat>)
    requires ImageOk(nextIno, files, blocks, owner, content) && f < |files| == |content| && L1 <= files[f].nblks < LN
    requires |data2| == |data1| == NENTRY && 0 < d < nextIno && 0 < e < nextIno && d != e
    requires var file := files[f];
             && (if file.dbIndirect == 0 then d !in blocks && forall k :: 0 <= k < NENTRY ==> data2[k] == 0
                 else d == file.dbIndirect && d in blocks && data2 == blocks[d])
             && var k := (file.nblks - L1) / NENTRY;
                if data2[k] == 0 then e !in blocks else e == data2[k] && e in blocks && data1 == blocks[e]
    ensures var file := files[f];
            var k, j := (file.nblks - L1) / NENTRY, (file.nblks - L1) % NENTRY;
            ImageOk(nextIno, files[f := file.(dbIndirect := d, l2 := Some(d), l1 := Some(e), nblks := file.nblks + 1)],
                    blocks[d := data2[k := e]][e := data1[j := ino]], owner[d := (f, Double)][e := (f, Leaf(k))],
                      content[f := content[f] + [ino]])
  {
    hide FileOk, ImageOk;
    OneImageFile(nextIno, files, blocks, owner, content, f);
    var file := files[f];
    FileShape(file, blocks, owner, f, content[f]);
    LeafCached(file, blocks, owner, f, content[f], data2);
    var k, j := (file.nblks - L1) / NENTRY, (file.nblks - L1) % NENTRY;
    AppendDouble(file, blocks, owner, f, content[f], ino, d, data2, e, data1);
    Framed(blocks, owner, f, d, Double, data2[k := e]);
    var blocks1, owner1 := blocks[d := data2[k := e]], owner[d := (f, Double)];
    Framed(blocks1, owner1, f, e, Leaf(k), data1[j := ino]);
    var blocks', owner' := blocks1[e := data1[j := ino]], owner1[e := (f, Leaf(k))];
    OneFile(nextIno, nextIno, files, blocks, owner, blocks', owner', f, content,
            file.(dbIndirect := d, l2 := Some(d), l1 := Some(e), nblks := file.nblks + 1), content[f] + [ino]);
  }

  /** Writing a block of file f touches no other file's block. */
  lemma {:induction false} Framed(blocks: Blocks, owner: Owners, f: nat, b: nat, kind: Kind, data: seq<nat>)
    requires blocks.Keys == owner.Keys && (b in owner ==> owner[b] == (f, kind))
    ensures blocks[b := data].Keys == owner[b := (f, kind)].Keys
    ensures forall x :: x in blocks && owner[x].0 != f ==> blocks[b := data][x] == blocks[x]
    ensures forall x :: x in owner ==> owner[b := (f, kind)][x] == owner[x]
  {
  }

  lemma {:induction false} EmptyFile(nextIno: nat, files: seq<File>, blocks: Blocks, owner: Owners,
      content: seq<seq<nat>>, file: File)
    requires ImageOk(nextIno, files, blocks, owner, content)
             && file.(ino := 0) == File(0, 0, seq(NDIRECT, _ => 0), 0, 0, None, None)
    ensures ImageOk(nextIno, files + [file], blocks, owner, content + [[]])
  {
  }

  lemma {:induction false} OneImageFile(nextIno: nat, files: seq<File>, blocks: Blocks, owner: Owners,
      content: seq<seq<nat>>, f: nat)
    requires ImageOk(nextIno, files, blocks, owner, content) && f < |files|
    ensures |content| == |files| && FileOk(files[f], blocks, owner, f, content[f])
    ensures blocks.Keys == owner.Keys && forall b :: b in blocks ==> b < nextIno
  {
  }

  lemma {:induction false} MoreInos(nextIno: nat, nextIno': nat, files: seq<File>, blocks: Blocks, owner: Owners,
      content: seq<seq<nat>>)
    requires ImageOk(nextIno, files, blocks, owner, content) && nextIno <= nextIno'
    ensures ImageOk(nextIno', files, blocks, owner, content)
  {
  }
}
