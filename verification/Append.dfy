/** Appending data to an inode: fill the last block, then link new ones until the data is stored. */
module Append {
  import opened Bytes
  import opened Layout
  import opened Volume
  import opened Steps

  /** `Stopped` is the program's exit when no block is free; it carries the state it left behind. */
  datatype Outcome = Done(w: World) | Stopped(w: World)

  function Pour(w: World, i: nat, data: seq<byte>): (r: Outcome)
    requires Ready(w, i)
    ensures r.w.m.inodes == w.m.inodes
    decreases |data|, if Room(w, i) == 0 then 1 else 0
  {
    var room := Room(w, i);
    if |data| <= room then Done(Put(w, i, data))
    else
      var full := Put(w, i, data[..room]);
      if FreeBlock(full) < 0 then Stopped(full)
      else Pour(Grow(full, i, FreeBlock(full)), i, data[room..])
  }

  lemma ReadyLive(w: World, i: nat)
    requires Core(w) && Live(w, i)
    ensures Ready(w, i)
    ensures w.m.blocks[Tail(w, i)].used && w.m.blocks[Tail(w, i)].next == -1
    ensures Room(w, i) == w.m.geo.blockSize - w.m.blocks[Tail(w, i)].size
  {
    assert Rooted(w, i);
    assert Placed(w, i, |w.chains[i]| - 1);
    assert FilledBlock(w, Tail(w, i));
  }

  // ---- size of a chain against size of its contents ----

  lemma FullBlock(w: World, i: nat, p: nat)
    requires Core(w) && Live(w, i) && p + 1 < |w.chains[i]|
    ensures w.chains[i][p] < |w.m.blocks| && w.m.blocks[w.chains[i][p]].size == w.m.geo.blockSize
    ensures |Body(w, w.chains[i][p])| == w.m.geo.blockSize
  {
    assert Placed(w, i, p);
    assert FilledBlock(w, w.chains[i][p]);
  }

  lemma {:induction false} FullPrefix(w: World, i: nat, n: nat)
    requires Core(w) && Live(w, i) && n < |w.chains[i]|
    ensures |Gather(w, w.chains[i][..n])| == n * w.m.geo.blockSize
  {
    hide Linked, Filled, Counted, Body;
    if n > 0 {
      FullPrefix(w, i, n - 1);
      FullBlock(w, i, n - 1);
      assert w.chains[i][..n][..n - 1] == w.chains[i][..n - 1];
      Scaled(w.m.geo.blockSize, n - 1, n);
    }
  }

  lemma ContentLength(w: World, i: nat)
    requires Core(w) && Live(w, i)
    ensures Ready(w, i)
    ensures |Content(w, i)| == (|w.chains[i]| - 1) * w.m.geo.blockSize + w.m.blocks[Tail(w, i)].size
    ensures w.m.blocks[Tail(w, i)].size <= w.m.geo.blockSize
  {
    ReadyLive(w, i);
    FullPrefix(w, i, |w.chains[i]| - 1);
  }

  // ---- one round of the loop ----

  /** `w'` differs from `w` in the blocks and bytes of inode `i` only. */
  ghost predicate OnlyGrows(w: World, i: nat, w': World) {
    && w'.m.geo == w.m.geo && w'.m.inodes == w.m.inodes && w'.m.usedInodes == w.m.usedInodes
    && |w'.chains| == |w.chains|
    && (forall j | 0 <= j < |w.chains| && j != i :: w'.chains[j] == w.chains[j])
    && (forall j | Live(w, j) && j != i :: Content(w', j) == Content(w, j))
  }

  lemma PutStep(w: World, i: nat, d: seq<byte>)
    requires Core(w) && Live(w, i) && Ready(w, i) && |d| <= Room(w, i)
    ensures Core(Put(w, i, d)) && OnlyGrows(w, i, Put(w, i, d))
    ensures Content(Put(w, i, d), i) == Content(w, i) + d
    ensures Ready(Put(w, i, d), i) && Room(Put(w, i, d), i) == Room(w, i) - |d|
  {
    ReadyLive(w, i);
    PutCore(w, i, d);
    PutContent(w, i, d);
  }

  lemma GrowStep(w: World, i: nat)
    requires Core(w) && Live(w, i) && Ready(w, i) && Room(w, i) == 0 && FreeBlock(w) >= 0
    ensures var w' := Grow(w, i, FreeBlock(w));
            && Core(w') && Ready(w', i) && OnlyGrows(w, i, w') && Content(w', i) == Content(w, i)
            && w'.m.blocks[Tail(w', i)].size == 0
  {
    GrowCore(w, i);
    GrowContent(w, i);
  }

  // ---- the whole append ----

  /** Success stores all of `data` behind the old bytes; every other inode keeps its chain and its bytes.
      Stopping means every block of the volume is in use, and a proper prefix of `data` was stored. */
  lemma {:induction false} PourKeeps(w: World, i: nat, data: seq<byte>)
    requires Core(w) && Live(w, i) && Ready(w, i)
    ensures var r := Pour(w, i, data);
            Core(r.w) && OnlyGrows(w, i, r.w)
    ensures var r := Pour(w, i, data);
            r.Done? ==> Content(r.w, i) == Content(w, i) + data
    ensures var r := Pour(w, i, data);
            r.Stopped? ==>
              && FreeBlock(r.w) < 0
              && Content(w, i) <= Content(r.w, i) < Content(w, i) + data
              && |Content(r.w, i)| == |r.w.chains[i]| * w.m.geo.blockSize
    decreases |data|, if Room(w, i) == 0 then 1 else 0
  {
    hide Linked, Filled, Counted, Tables, HasRoot, Put, Grow, Content;
    var room := Room(w, i);
    if |data| <= room {
      PutStep(w, i, data);
    } else {
      var full := Put(w, i, data[..room]);
      PutStep(w, i, data[..room]);
      assert Content(w, i) + data == Content(full, i) + data[room..] by {
        assert data == data[..room] + data[room..];
      }
      if FreeBlock(full) < 0 {
        ContentLength(full, i);
        ReadyLive(full, i);
        Scaled(w.m.geo.blockSize, |full.chains[i]| - 1, |full.chains[i]|);
      } else {
        var next := Grow(full, i, FreeBlock(full));
        GrowStep(full, i);
        ReadyLive(full, i);
        ReadyLive(next, i);
        PourKeeps(next, i, data[room..]);
      }
    }
  }

  /** A chain of several blocks never ends in an empty one. */
  ghost predicate Tight(w: World, i: nat) {
    Ready(w, i) ==> (|w.chains[i]| > 1 ==> w.m.blocks[Tail(w, i)].size > 0)
  }

  lemma {:induction false} PourTight(w: World, i: nat, data: seq<byte>)
    requires Core(w) && Live(w, i) && Ready(w, i)
    requires data != [] || Tight(w, i)
    ensures Pour(w, i, data).Done? ==> Tight(Pour(w, i, data).w, i)
    decreases |data|, if Room(w, i) == 0 then 1 else 0
  {
    hide Linked, Filled, Counted, Tables, HasRoot, Grow, Content;
    var room := Room(w, i);
    if |data| > room {
      PutStep(w, i, data[..room]);
      var full := Put(w, i, data[..room]);
      if FreeBlock(full) >= 0 {
        GrowStep(full, i);
        PourTight(Grow(full, i, FreeBlock(full)), i, data[room..]);
      }
    }
  }

  // ---- splitting the data ----

  lemma PutTwice(w: World, i: nat, a: seq<byte>, b: seq<byte>)
    requires Ready(w, i) && Ready(Put(w, i, a), i)
    ensures Put(Put(w, i, a), i, b) == Put(w, i, a + b)
  {
    var t := Tail(w, i);
    PatchConcat(w.image, BodyStart(w.m.geo, t) + w.m.blocks[t].size, a, b);
    assert Put(Put(w, i, a), i, b).m.blocks == Put(w, i, a + b).m.blocks;
  }

  /** `Pour` on what an earlier append left, unless that one stopped. */
  function Then(r: Outcome, i: nat, data: seq<byte>): Outcome
    requires r.Done? ==> Ready(r.w, i)
  {
    if r.Stopped? then r else Pour(r.w, i, data)
  }

  lemma {:induction false} PourReady(w: World, i: nat, data: seq<byte>)
    requires Ready(w, i)
    ensures Ready(Pour(w, i, data).w, i)
    decreases |data|, if Room(w, i) == 0 then 1 else 0
  {
    var room := Room(w, i);
    if |data| > room && FreeBlock(Put(w, i, data[..room])) >= 0 {
      var full := Put(w, i, data[..room]);
      PourReady(Grow(full, i, FreeBlock(full)), i, data[room..]);
    }
  }

  /** Appending `a` and then `b` is appending `a + b`: same tables, counter, file and success, for every split. */
  lemma {:induction false} PourSplit(w: World, i: nat, a: seq<byte>, b: seq<byte>)
    requires Ready(w, i)
    ensures Ready(Pour(w, i, a).w, i)
    ensures Then(Pour(w, i, a), i, b) == Pour(w, i, a + b)
    decreases |a|, if Room(w, i) == 0 then 1 else 0
  {
    PourReady(w, i, a);
    var room := Room(w, i);
    if |a| > room {
      assert (a + b)[..room] == a[..room];
      assert (a + b)[room..] == a[room..] + b;
      var full := Put(w, i, a[..room]);
      if FreeBlock(full) >= 0 {
        PourSplit(Grow(full, i, FreeBlock(full)), i, a[room..], b);
      }
    } else {
      var rest := room - |a|;
      assert Room(Put(w, i, a), i) == rest;
      if |b| <= rest {
        PutTwice(w, i, a, b);
      } else {
        PutTwice(w, i, a, b[..rest]);
        assert (a + b)[..room] == a + b[..rest];
        assert (a + b)[room..] == b[rest..];
      }
    }
  }

  /** The three appends of a directory record are one append of all its bytes. */
  lemma ThreeAppends(w: World, i: nat, a: seq<byte>, b: seq<byte>, c: seq<byte>)
    requires Ready(w, i)
    ensures Ready(Pour(w, i, a).w, i) && Ready(Then(Pour(w, i, a), i, b).w, i)
    ensures Then(Then(Pour(w, i, a), i, b), i, c) == Pour(w, i, a + b + c)
  {
    PourSplit(w, i, a, b);
    PourSplit(w, i, a + b, c);
    PourReady(w, i, a + b);
  }

  // ---- the rounds of the loop, as equations ----

  lemma PutNothing(w: World, i: nat)
    requires Ready(w, i)
    ensures Put(w, i, []) == w
  {
    var t := Tail(w, i);
    assert w.m.blocks[t := w.m.blocks[t]] == w.m.blocks;
  }

  lemma PourFits(w: World, i: nat, data: seq<byte>)
    requires Ready(w, i) && |data| <= Room(w, i)
    ensures Pour(w, i, data) == Done(Put(w, i, data))
  {
  }

  /** With the last block full, the append goes on in a new block or stops. */
  lemma PourAtFull(w: World, i: nat, data: seq<byte>)
    requires Ready(w, i) && Room(w, i) == 0 && data != []
    ensures FreeBlock(w) < 0 ==> Pour(w, i, data) == Stopped(w)
    ensures FreeBlock(w) >= 0 ==>
              Ready(Grow(w, i, FreeBlock(w)), i) && Pour(w, i, data) == Pour(Grow(w, i, FreeBlock(w)), i, data)
  {
    PutNothing(w, i);
    assert data[..0] == [] && data[0..] == data;
  }

  /** Filling the last block first changes nothing. */
  lemma PourFill(w: World, i: nat, data: seq<byte>)
    requires Core(w) && Live(w, i) && Ready(w, i) && |data| > Room(w, i)
    ensures var full := Put(w, i, data[..Room(w, i)]);
            && Core(full) && Live(full, i) && Ready(full, i) && Room(full, i) == 0
            && Pour(w, i, data) == Pour(full, i, data[Room(w, i)..])
  {
    hide Linked, Filled, Counted, Tables, HasRoot, Content;
    PutStep(w, i, data[..Room(w, i)]);
    PourAtFull(Put(w, i, data[..Room(w, i)]), i, data[Room(w, i)..]);
  }
}
