/** The table of directories being walked: cycle_hash, cycle_lookup, cycle_insert and cycle_remove of src/fts.c. */
module FtsCycle {
  import opened FtsSpec
  import opened FtsFrames

  /** struct cycle_entry. */
  datatype Entry = Entry(id: Id, ent: Node)

  const BUCKETS: nat := 64

  /** cycle_hash for 64 buckets. */
  function Hash(id: Id): (h: nat)
    ensures h < BUCKETS
  {
    (((id.dev << 5) ^ id.ino) & 63) as nat
  }

  /** A bucket holds just the directories of the view that belong in it, each once. */
  ghost predicate Bucket(es: seq<Entry>, b: nat, view: map<Id, Node>) {
    && (forall k :: 0 <= k < |es| ==> Hash(es[k].id) == b && es[k].id in view && view[es[k].id] == es[k].ent)
    && (forall j, k :: 0 <= j < k < |es| ==> es[j].id != es[k].id)
    && (forall id :: id in view && Hash(id) == b ==> In(es, id))
  }

  ghost predicate In(es: seq<Entry>, id: Id) {
    exists k :: 0 <= k < |es| && es[k].id == id
  }

  lemma BucketInsert(es: seq<Entry>, b: nat, view: map<Id, Node>, id: Id, ent: Node)
    requires Bucket(es, b, view) && id !in view
    ensures Bucket(if Hash(id) == b then [Entry(id, ent)] + es else es, b, view[id := ent])
  {
    if Hash(id) == b {
      var fs := [Entry(id, ent)] + es;
      assert forall k :: 0 < k < |fs| ==> fs[k] == es[k - 1];
      forall x | x in view[id := ent] && Hash(x) == b ensures In(fs, x) {
        if x == id {
          assert fs[0].id == id;
        } else {
          assert In(es, x);
          var k :| 0 <= k < |es| && es[k].id == x;
          assert fs[k + 1].id == x;
        }
      }
    }
  }

  lemma BucketRemove(es: seq<Entry>, b: nat, view: map<Id, Node>, i: nat)
    requires Bucket(es, b, view) && i < |es|
    ensures Bucket(es[..i] + es[i + 1..], b, view - {es[i].id})
  {
    var fs := es[..i] + es[i + 1..];
    assert forall k :: 0 <= k < |fs| ==> fs[k] == es[if k < i then k else k + 1];
    forall x | x in view - {es[i].id} && Hash(x) == b ensures In(fs, x) {
      assert In(es, x);
      var k :| 0 <= k < |es| && es[k].id == x;
      assert fs[if k < i then k else k - 1].id == x;
    }
  }

  class CycleTable {
    var buckets: seq<seq<Entry>>
    ghost var view: map<Id, Node>

    ghost predicate Valid()
      reads this
    {
      |buckets| == BUCKETS && forall b :: 0 <= b < BUCKETS ==> Bucket(buckets[b], b, view)
    }

    /** cycle_init. */
    constructor ()
      ensures Valid() && view == map[]
    {
      buckets, view := seq(BUCKETS, b => []), map[];
    }

    /** Where the directory is in its bucket, or the length of the bucket. */
    method Find(id: Id) returns (i: nat)
      requires Valid()
      ensures i <= |buckets[Hash(id)]| && (i < |buckets[Hash(id)]| ==> buckets[Hash(id)][i].id == id)
      ensures id in view <==> i < |buckets[Hash(id)]|
    {
      var es := buckets[Hash(id)];
      assert Bucket(es, Hash(id), view);
      i := 0;
      while i < |es| && es[i].id != id
        invariant i <= |es| && forall k :: 0 <= k < i ==> es[k].id != id
      {
        i := i + 1;
      }
      if id in view {
        assert In(es, id);
      }
    }

    /** cycle_lookup. */
    method Lookup(id: Id) returns (ent: Node?)
      requires Valid()
      ensures if id in view then ent == view[id] else ent == null
    {
      var i := Find(id);
      var es := buckets[Hash(id)];
      assert Bucket(es, Hash(id), view);
      ent := if i < |es| then es[i].ent else null;
    }

    /** cycle_insert: what is there already stays. */
    method Insert(id: Id, ent: Node)
      requires Valid()
      modifies this
      ensures Valid() && view == if id in old(view) then old(view) else old(view)[id := ent]
    {
      var i := Find(id);
      var h := Hash(id);
      if i == |buckets[h]| {
        forall b | 0 <= b < BUCKETS
          ensures Bucket(if b == h then [Entry(id, ent)] + buckets[b] else buckets[b], b, view[id := ent])
        {
          BucketInsert(buckets[b], b, view, id, ent);
        }
        buckets := buckets[h := [Entry(id, ent)] + buckets[h]];
        view := view[id := ent];
      }
    }

    /** cycle_remove. */
    method Remove(id: Id)
      requires Valid()
      modifies this
      ensures Valid() && view == old(view) - {id}
    {
      var i := Find(id);
      var h := Hash(id);
      if i < |buckets[h]| {
        BucketRemove(buckets[h], h, view, i);
        forall b | 0 <= b < BUCKETS && b != h ensures Bucket(buckets[b], b, view - {id}) {
          assert Bucket(buckets[b], b, view);
        }
        buckets := buckets[h := buckets[h][..i] + buckets[h][i + 1..]];
        view := view - {id};
      }
    }
  }
}
