/** `InMemoryArtifactClient`, one call at a time. */
module ArtifactStore {
  import opened ProofIndex

  type Bytes = seq<bv8>

  function UntrackAll(s: Index, ids: seq<Id>): Index {
    if ids == [] then s else Untrack(UntrackAll(s, ids[..|ids| - 1]), ids[|ids| - 1])
  }

  /** Deleting a batch leaves in the index exactly the artifacts outside the batch. */
  lemma {:induction false} UntrackAllKeeps(s: Index, ids: seq<Id>)
    requires Inverse(s)
    ensures Inverse(UntrackAll(s, ids))
    ensures UntrackAll(s, ids).ofArtifact == s.ofArtifact - (set a | a in ids)
  {
    if ids != [] {
      var prev, a := ids[..|ids| - 1], ids[|ids| - 1];
      UntrackAllKeeps(s, prev);
      UntrackKeeps(UntrackAll(s, prev), a);
      assert ids == prev + [a];
    }
  }

  class Client {
    var artifacts: map<Id, Bytes>
    var refs: map<Id, set<Id>>
    const index: ProofArtifacts

    constructor (index: ProofArtifacts)
      ensures artifacts == map[] && refs == map[] && this.index == index
    {
      artifacts, refs, this.index := map[], map[], index;
    }

    /** `delete`: the bytes first, then the index. */
    method Delete(a: Id)
      modifies this`artifacts, index
      ensures artifacts == old(artifacts) - {a}
      ensures index.View() == Untrack(old(index.View()), a)
    {
      artifacts := artifacts - {a};
      index.UntrackArtifact(a);
    }

    /** `delete_batch`: all bytes first, then the index one by one. */
    method DeleteBatch(ids: seq<Id>)
      modifies this`artifacts, index
      ensures artifacts == old(artifacts) - (set a | a in ids)
      ensures index.View() == UntrackAll(old(index.View()), ids)
    {
      for i := 0 to |ids|
        invariant artifacts == old(artifacts) - (set a | a in ids[..i])
        invariant index.View() == old(index.View())
      {
        assert ids[..i + 1] == ids[..i] + [ids[i]];
        artifacts := artifacts - {ids[i]};
      }
      assert ids[..|ids|] == ids;
      for i := 0 to |ids|
        invariant artifacts == old(artifacts) - (set a | a in ids)
        invariant index.View() == UntrackAll(old(index.View()), ids[..i])
      {
        assert ids[..i + 1][..i] == ids[..i];
        index.UntrackArtifact(ids[i]);
      }
    }

    method AddRef(a: Id, task: Id)
      modifies this`refs
      ensures refs == old(refs)[a := (if a in old(refs) then old(refs)[a] else {}) + {task}]
    {
      var entry := if a in refs then refs[a] else {};
      refs := refs[a := entry + {task}];
    }

    /** `remove_ref`: true exactly when no other task refers to the artifact, which is then deleted
        everywhere; otherwise only the reference goes. */
    method RemoveRef(a: Id, task: Id) returns (deleted: bool)
      modifies this`artifacts, this`refs, index
      ensures deleted <==> forall t :: a in old(refs) && t in old(refs)[a] ==> t == task
      ensures deleted ==> refs == old(refs) - {a} && artifacts == old(artifacts) - {a}
      ensures deleted ==> index.View() == Untrack(old(index.View()), a)
      ensures !deleted ==> a in old(refs) && refs == old(refs)[a := old(refs)[a] - {task}]
      ensures !deleted ==> artifacts == old(artifacts) && index.View() == old(index.View())
    {
      var refCount := 0;
      if a in refs {
        refs := refs[a := refs[a] - {task}];
        refCount := |refs[a]|;
        assert refCount == 0 <==> old(refs)[a] - {task} == {};
        assert forall t :: t in old(refs)[a] && t != task ==> t in old(refs)[a] - {task};
      }
      if refCount == 0 {
        refs := refs - {a};
        Delete(a);
        return true;
      }
      assert exists t :: t in refs[a];
      return false;
    }
  }
}
