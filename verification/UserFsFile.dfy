/** struct block and struct file of 3/userfs.c: a file's bytes in a list of 512-byte blocks.
    Writing and reading walk the list; the contracts speak of one flat byte sequence. */
module UserFsFile {
  import opened Common
  import opened UserFsModel

  class Block {
    const memory: array<byte>
    var occupied: int
    var next: Block?
    var prev: Block?
    ghost const index: nat

    /** Lines 209-212; `prev` is not set. */
    constructor (ghost n: nat)
      ensures fresh(memory) && memory.Length == BLOCK_SIZE
      ensures occupied == 0 && next == null && index == n
    {
      memory := new byte[BLOCK_SIZE];
      index := n;
      occupied, next := 0, null;
    }

    /** Lines 221-223. */
    method Put(offset: nat, data: seq<byte>)
      requires memory.Length == BLOCK_SIZE && offset + |data| <= BLOCK_SIZE
      modifies this`occupied, memory
      ensures occupied == Max(offset + |data|, old(occupied))
      ensures forall k :: 0 <= k < BLOCK_SIZE ==>
        memory[k] == if offset <= k < offset + |data| then data[k - offset] else old(memory[k])
    {
      forall k | 0 <= k < |data| {
        memory[offset + k] := data[k];
      }
      occupied := Max(offset + |data|, occupied);
    }
  }

  /** The block at index i of a list, or null behind its end. */
  ghost function BlockAt(blocks: seq<Block>, i: nat): Block? {
    if i < |blocks| then blocks[i] else null
  }

  /** Both link directions of a block list; the first block's `prev` is never set. */
  ghost predicate Linked(blocks: seq<Block>)
    reads blocks`next, blocks`prev
  {
    forall i {:trigger blocks[i].next} {:trigger blocks[i].prev} :: 0 <= i < |blocks| ==>
      && blocks[i].next == BlockAt(blocks, i + 1)
      && (i > 0 ==> blocks[i].prev == blocks[i - 1])
  }

  /** Blocks and their memories are pairwise different. */
  ghost predicate Apart(blocks: seq<Block>) {
    && (forall i :: 0 <= i < |blocks| ==> blocks[i].memory.Length == BLOCK_SIZE && blocks[i].index == i)
    && (forall i, j {:trigger blocks[i].memory, blocks[j].memory} :: 0 <= i < j < |blocks| ==>
          blocks[i].memory != blocks[j].memory)
  }

  /** Where block i starts in the content: BLOCK_SIZE * i. */
  function Start(i: int): int {
    512 * i
  }

  /** Block i holds the bytes of content from Start(i) on, and is full unless content ends in it. */
  ghost predicate Holds(b: Block, i: nat, content: seq<byte>)
    reads b`occupied, b.memory
  {
    && b.memory.Length == BLOCK_SIZE
    && 0 <= b.occupied
    && Start(i) + b.occupied == Min(Start(i + 1), |content|)
    && forall k :: 0 <= k < b.occupied ==> b.memory[k] == content[Start(i) + k]
  }

  lemma ApartGrows(blocks: seq<Block>, block: Block, content: seq<byte>)
    requires Apart(blocks) && block.index == |blocks| && block.memory.Length == BLOCK_SIZE && block.occupied == 0
    requires forall b :: b in blocks ==> b.memory != block.memory
    requires |content| == Start(|blocks|)
    ensures Apart(blocks + [block]) && Holds(block, |blocks|, content)
    ensures forall i :: 0 <= i < |blocks| ==> blocks[i].index == i
  {
  }

  /** Overlaying inside block n does not concern another block. */
  lemma HoldsOther(b: Block, i: nat, n: nat, content: seq<byte>, offset: nat, data: seq<byte>)
    requires i != n && offset + |data| <= 512 && Start(n) + offset <= |content|
    requires Holds(b, i, content)
    requires i > n ==> Start(n + 1) <= |content|
    ensures Holds(b, i, Overlay(content, Start(n) + offset, data))
  {
  }

  class File {
    var blockList: Block?
    var refs: int
    var name: string
    var next: File?
    var prev: File?
    var isDel: bool

    ghost const id: FileId
    ghost var blocks: seq<Block>
    ghost var content: seq<byte>
    ghost var repr: set<object>

    /** The block list, apart from how many blocks there are. */
    ghost predicate Shape()
      reads this`blockList, this`blocks, this`content, this`repr, repr
    {
      && (forall i :: 0 <= i < |blocks| ==> blocks[i] in repr && blocks[i].memory in repr)
      && blockList == BlockAt(blocks, 0)
      && Linked(blocks)
      && Apart(blocks)
      && |content| <= Start(|blocks|)
      && forall i :: 0 <= i < |blocks| ==> Holds(blocks[i], i, content)
    }

    /** No block is empty. */
    ghost predicate Valid()
      reads this`blockList, this`blocks, this`content, this`repr, repr
    {
      Shape() && (blocks != [] ==> Start(|blocks| - 1) < |content|)
    }

    constructor (filename: string, ghost identity: FileId)
      ensures Valid() && repr == {} && content == [] && blocks == []
      ensures name == filename && refs == 0 && !isDel && next == null && prev == null && id == identity
    {
      blockList, refs, name, next, prev, isDel := null, 0, filename, null, null, false;
      id, blocks, content, repr := identity, [], [], {};
    }

    /** Lines 213-218: link a block behind the last one. */
    method LinkBlock(last: Block?, block: Block)
      requires Linked(blocks) && blockList == BlockAt(blocks, 0)
      requires forall i :: 0 <= i < |blocks| ==> blocks[i].index == i
      requires last == if blocks == [] then null else blocks[|blocks| - 1]
      requires block.index == |blocks| && block.next == null
      modifies this`blockList, this`blocks, block`prev, if last == null then {} else {last}`next
      ensures blocks == old(blocks) + [block]
      ensures Linked(blocks) && blockList == BlockAt(blocks, 0)
    {
      if last != null {
        block.prev := last;
        last.next := block;
      } else {
        blockList := block;
      }
      blocks := blocks + [block];
    }

    /** Lines 209-218: an empty block behind the last one. */
    method AppendBlock(last: Block?) returns (block: Block)
      requires Valid() && |content| == Start(|blocks|)
      requires last == if blocks == [] then null else blocks[|blocks| - 1]
      modifies this`blockList, this`blocks, this`repr, if last == null then {} else {last}`next
      ensures Shape() && content == old(content)
      ensures blocks == old(blocks) + [block] && fresh(block) && fresh(block.memory) && block.occupied == 0
      ensures repr == old(repr) + {block, block.memory}
    {
      hide Linked, Apart, Holds;
      ghost var was := blocks;
      block := new Block(|blocks|);
      ApartGrows(was, block, content);
      LinkBlock(last, block);
      repr := repr + {block, block.memory};
      assert forall i :: 0 <= i < |was| ==> blocks[i] == was[i] && Holds(was[i], i, content);
    }

    /** Lines 221-224: data into one block, growing its occupied part if it ends behind it. */
    method WriteBlock(block: Block, ghost n: nat, offset: nat, data: seq<byte>)
      requires Shape() && n < |blocks| && blocks[n] == block
      requires n == |blocks| - 1 || Start(|blocks| - 1) < |content|
      requires data != [] && offset + |data| <= BLOCK_SIZE && Start(n) + offset <= |content|
      modifies this`content, block`occupied, block.memory
      ensures Valid() && content == Overlay(old(content), Start(n) + offset, data)
    {
      hide Linked;
      block.Put(offset, data);
      ghost var was := content;
      content := Overlay(content, Start(n) + offset, data);
      forall i | 0 <= i < |blocks| ensures Holds(blocks[i], i, content) {
        if i != n {
          assert Holds(blocks[i], i, was);
          HoldsOther(blocks[i], i, n, was, offset, data);
        }
      }
      assert Linked(blocks);
    }

    /** Lines 195-205: the writer finds its block by division. */
    method Seek(pos: nat) returns (block: Block?, prev: Block?, n: nat)
      requires Valid() && pos <= |content|
      ensures n <= |blocks| && Start(n) <= pos < Start(n + 1) && n == pos / BLOCK_SIZE
      ensures block == BlockAt(blocks, n) && prev == if n == 0 then null else blocks[n - 1]
    {
      block, prev, n := blockList, null, 0;
      DivisionSeeks(pos, n);
      while pos / (BLOCK_SIZE * (n + 1)) > 0
        invariant n <= |blocks| && Start(n) <= pos
        invariant block == BlockAt(blocks, n) && prev == if n == 0 then null else blocks[n - 1]
        invariant pos / (BLOCK_SIZE * (n + 1)) > 0 <==> Start(n + 1) <= pos
        decreases pos - Start(n)
      {
        prev, block, n := block, block.next, n + 1;
        DivisionSeeks(pos, n);
      }
    }

    /** One round of the loop at line 207: data into block n, allocated if there is none. */
    method WriteRound(at: Block?, prev: Block?, n: nat, offset: nat, data: seq<byte>, ghost pos: nat)
      returns (block: Block, next: Block?)
      requires Valid() && n <= |blocks| && pos == Start(n) + offset && pos <= |content|
      requires at == BlockAt(blocks, n) && prev == if n == 0 then null else blocks[n - 1]
      requires data != [] && offset + |data| <= BLOCK_SIZE
      modifies this`blockList, this`blocks, this`content, this`repr, repr
      ensures Valid() && content == Overlay(old(content), pos, data)
      ensures n < |blocks| && block == blocks[n] && next == BlockAt(blocks, n + 1)
      ensures old(repr) <= repr && fresh(repr - old(repr))
    {
      if at == null {
        block := AppendBlock(prev);
      } else {
        block := at;
      }
      WriteBlock(block, n, offset, data);
      next := block.next;
    }

    /** file_write, lines 193-232. */
    method Write(buf: seq<byte>, position: nat) returns (written: nat)
      requires Valid() && position <= |content|
      modifies this`blockList, this`blocks, this`content, this`repr, repr
      ensures Valid() && content == Overlay(old(content), position, buf)
      ensures old(repr) <= repr && fresh(repr - old(repr))
      ensures written == |buf|
    {
      hide Linked, Apart, Holds, Overlaid;
      var pos := position;
      var block, prev, n: nat := Seek(pos);
      var offset: nat := (pos - BLOCK_SIZE * n) % BLOCK_SIZE;
      assert offset == pos - Start(n);
      ghost var was := content;
      OverlaidNone(was, position, buf);
      while pos < position + |buf|
        invariant Valid() && position <= pos <= position + |buf|
        invariant Overlaid(content, was, position, buf, pos - position)
        invariant n <= |blocks| && pos <= |content|
        invariant block == BlockAt(blocks, n) && prev == if n == 0 then null else blocks[n - 1]
        invariant pos < position + |buf| ==> pos == Start(n) + offset && offset < BLOCK_SIZE
        invariant old(repr) <= repr && fresh(repr - old(repr))
      {
        var toCopy := Min(BLOCK_SIZE - offset, |buf| - (pos - position));
        ghost var before := content;
        var data := buf[pos - position..pos - position + toCopy];
        prev, block := WriteRound(block, prev, n, offset, data, pos);
        OverlaidNext(was, position, buf, before, content, pos, data);
        pos, n, offset := pos + toCopy, n + 1, 0;
      }
      OverlaidIs(content, was, position, buf);
      written := |buf|;
    }

    /** Lines 297-302: the reader finds its block by subtraction. */
    method Walk(position: nat) returns (block: Block?, pos: nat, ghost n: nat)
      requires Valid() && position <= |content|
      ensures n <= |blocks| && block == BlockAt(blocks, n)
      ensures if block == null then position == |content| else position == Start(n) + pos && pos < block.occupied
      ensures block == null <==> position == |content|
      ensures block != null ==> block == BlockAt(blocks, position / BLOCK_SIZE) && pos == position % BLOCK_SIZE
    {
      block, pos, n := blockList, position, 0;
      while block != null && pos >= block.occupied
        invariant n <= |blocks| && block == BlockAt(blocks, n)
        invariant position == Min(Start(n), |content|) + pos
        decreases |blocks| - n
      {
        assert Holds(blocks[n], n, content);
        pos, block, n := pos - block.occupied, block.next, n + 1;
      }
    }

    /** Lines 306-309: one block's share of a read. */
    method CopyOut(block: Block, ghost n: nat, pos: nat, buf: array<byte>, at: nat, size: nat)
      returns (copied: nat, next: Block?)
      requires Valid() && n < |blocks| && block == blocks[n] && pos < block.occupied
      requires at < size <= buf.Length && buf !in repr
      modifies buf
      ensures Valid() && copied == Min(size - at, block.occupied - pos)
      ensures next == BlockAt(blocks, n + 1) && Start(n) + pos + copied <= |content|
      ensures at + copied < size ==> Start(n) + pos + copied == if next == null then |content| else Start(n + 1)
      ensures next != null ==> next.occupied > 0
      ensures forall k :: 0 <= k < buf.Length ==>
        buf[k] == if at <= k < at + copied then content[Start(n) + pos + (k - at)] else old(buf[k])
    {
      assert Holds(block, n, content);
      copied := Min(size - at, block.occupied - pos);
      assert forall k :: pos <= k < pos + copied ==> block.memory[k] == content[Start(n) + k];
      forall k | 0 <= k < copied {
        buf[at + k] := block.memory[pos + k];
      }
      next := block.next;
      assert next != null ==> Holds(next, n + 1, content);
    }

    /** The reading loops of ufs_read, lines 294-312. */
    method Read(buf: array<byte>, size: nat, position: nat) returns (bytesRead: nat)
      requires Valid() && position <= |content|
      requires size <= buf.Length && buf !in repr
      modifies buf
      ensures bytesRead == Min(size, |content| - position)
      ensures buf[..bytesRead] == content[position..position + bytesRead]
      ensures buf[bytesRead..] == old(buf[bytesRead..])
    {
      hide Linked, Apart, Holds;
      var block, pos: nat, n: nat := Walk(position);
      bytesRead := 0;
      while block != null && bytesRead < size
        invariant Valid() && n <= |blocks| && block == BlockAt(blocks, n)
        invariant bytesRead <= size && position + bytesRead <= |content|
        invariant bytesRead < size ==>
          if block == null then position + bytesRead == |content|
          else position + bytesRead == Start(n) + pos && pos < block.occupied
        invariant forall k :: 0 <= k < buf.Length ==>
          buf[k] == if k < bytesRead then content[position + k] else old(buf[k])
        decreases |blocks| - n
      {
        var copied, next := CopyOut(block, n, pos, buf, bytesRead, size);
        bytesRead := bytesRead + copied;
        block, pos, n := next, 0, n + 1;
      }
    }
  }

  /** `now` is `was` with the first `done` bytes of buf written over it from pos on. */
  ghost predicate Overlaid(now: seq<byte>, was: seq<byte>, pos: nat, buf: seq<byte>, done: nat)
    requires pos <= |was| && done <= |buf|
  {
    && |now| == Max(|was|, pos + done)
    && forall k :: 0 <= k < |now| ==> now[k] == if pos <= k < pos + done then buf[k - pos] else was[k]
  }

  lemma OverlaidNone(was: seq<byte>, pos: nat, buf: seq<byte>)
    requires pos <= |was|
    ensures Overlaid(was, was, pos, buf, 0)
  {
  }

  lemma OverlaidIs(now: seq<byte>, was: seq<byte>, pos: nat, buf: seq<byte>)
    requires pos <= |was| && Overlaid(now, was, pos, buf, |buf|)
    ensures now == Overlay(was, pos, buf)
  {
  }

  lemma OverlaidNext(was: seq<byte>, start: nat, buf: seq<byte>, before: seq<byte>, now: seq<byte>, pos: nat,
      data: seq<byte>)
    requires start <= |was| && start <= pos <= pos + |data| <= start + |buf|
    requires Overlaid(before, was, start, buf, pos - start) && data == buf[pos - start..pos - start + |data|]
    requires now == Overlay(before, pos, data)
    ensures Overlaid(now, was, start, buf, pos + |data| - start)
  {
  }

  /** The division of line 199 is a comparison. */
  lemma DivisionSeeks(pos: nat, n: nat)
    ensures pos / (BLOCK_SIZE * (n + 1)) > 0 <==> Start(n + 1) <= pos
  {
    var d := BLOCK_SIZE * (n + 1);
    assert d == Start(n + 1);
    if pos < d { assert pos / d == 0; } else { assert pos / d >= 1; }
  }
}
