/**
 A run directory: one manifest and one file per question, shared by every
 attempt at the run. Reading the directory is the resume state.
 A file is identified by its question id, its name being an injective function of that.
 */
module RunStore {
  import opened Wrappers
  import opened Taxonomy

  datatype Artifact = Artifact(
    questionId: string,
    matched: Option<bool>,
    category: FailureCategory,
    errorType: Option<string>,
    recallAtK: map<nat, real>,
    unresolved: nat,
    answeringModel: string,
    inputTokens: nat,
    outputTokens: nat)

  type Files = map<string, Artifact>

  /** What is on disk: the fingerprint in the manifest, if one was written, and the artifacts. */
  datatype Contents = Contents(manifest: Option<string>, files: Files)

  predicate Named(files: Files) {
    forall id :: id in files ==> files[id].questionId == id
  }

  /** Answered, not merely recorded: an infrastructure failure is asked again. */
  function Answered(files: Files): set<string> {
    set id | id in files && !IsInfrastructure(files[id].errorType)
  }

  class Directory {
    var manifest: Option<string>
    var files: Files

    constructor ()
      ensures Disk() == Contents(None, map[])
    {
      manifest, files := None, map[];
    }

    function Disk(): Contents
      reads this
    {
      Contents(manifest, files)
    }
  }

  /** Each recorded artifact once, in some order. */
  ghost predicate Lists(listing: seq<Artifact>, files: Files) {
    && (forall a :: a in listing ==> a.questionId in files && files[a.questionId] == a)
    && (forall id :: id in files ==> files[id] in listing)
    && (forall i, j :: 0 <= i < j < |listing| ==> listing[i] != listing[j])
  }

  lemma ListsOneMore(listing: seq<Artifact>, files: Files, unread: set<string>, id: string)
    requires Named(files) && unread <= files.Keys && id in unread && Lists(listing, files - unread)
    ensures Lists(listing + [files[id]], files - (unread - {id}))
  {
    var now := listing + [files[id]];
    forall k | k in files - (unread - {id})
      ensures files[k] in now
    {
      if k == id {
        assert now[|listing|] == files[id];
      } else {
        assert k in files - unread && (files - unread)[k] == files[k];
      }
    }
  }

  class Store {
    const root: Directory
    const fingerprint: string

    constructor (root: Directory, fingerprint: string)
      ensures this.root == root && this.fingerprint == fingerprint
    {
      this.root, this.fingerprint := root, fingerprint;
    }

    /** Writes the manifest unless one is already there. */
    method Start()
      modifies root
      ensures root.files == old(root.files)
      ensures root.manifest == if old(root.manifest).None? then Some(fingerprint) else old(root.manifest)
    {
      if root.manifest.None? { root.manifest := Some(fingerprint); }
    }

    /** The question ids already answered, or an error when the run on disk has another configuration. */
    method Resume() returns (r: Result<set<string>, string>)
      requires Named(root.files)
      ensures r.Err? <==> root.manifest.Some? && root.manifest.value != fingerprint
      ensures r.Ok? ==> r.value == if root.manifest.None? then {} else Answered(root.files)
    {
      if root.manifest.None? { return Ok({}); }
      if root.manifest.value != fingerprint { return Err("different configuration"); }
      var done: set<string>, unread := {}, root.files.Keys;
      while unread != {}
        invariant unread <= root.files.Keys
        invariant done == Answered(root.files) - unread
        decreases |unread|
      {
        var id :| id in unread;
        var record := root.files[id];
        if !IsInfrastructure(record.errorType) { done := done + {record.questionId}; }
        unread := unread - {id};
      }
      return Ok(done);
    }

    /** Overwrites the file of the same question. */
    method Record(a: Artifact)
      requires Named(root.files)
      modifies root
      ensures Named(root.files) && root.manifest == old(root.manifest)
      ensures root.files == old(root.files)[a.questionId := a]
    {
      root.files := root.files[a.questionId := a];
    }

    method Artifacts() returns (listing: seq<Artifact>)
      requires Named(root.files)
      ensures Lists(listing, root.files)
    {
      var unread := root.files.Keys;
      listing := [];
      while unread != {}
        invariant unread <= root.files.Keys
        invariant Lists(listing, root.files - unread)
        decreases |unread|
      {
        var id :| id in unread;
        ListsOneMore(listing, root.files, unread, id);
        listing := listing + [root.files[id]];
        unread := unread - {id};
      }
      assert root.files - {} == root.files;
    }
  }
}
