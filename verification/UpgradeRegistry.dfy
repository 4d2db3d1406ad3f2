/** Loading the upgrader scripts and migrating one checkpoint (gem5/util/cpt_upgrader.py:90-279). */
module UpgradeRegistry {
  import opened Wrappers
  import opened Collections
  import opened UpgradeEngine

  /** What one script declares, with `depends` and `fwd_depends` already turned into lists. */
  datatype Script = Script(tag: Tag, depends: seq<Tag>, fwdDepends: seq<Tag>, kind: Kind, legacyVersion: Option<int>)

  // ---------- What loading must produce, as functions of the files ----------

  /** The object a tag resolves to: the last script that claims it. */
  function ByTag(files: seq<Script>): map<Tag, nat> {
    if files == [] then map[]
    else ByTag(files[..|files| - 1])[files[|files| - 1].tag := |files| - 1]
  }

  function Legacy(files: seq<Script>): map<int, nat> {
    if files == [] then map[]
    else
      var before := Legacy(files[..|files| - 1]);
      WithLegacy(before, files[|files| - 1], |files| - 1)
  }

  /** The legacy versions once object `k`, from script `s`, is registered. */
  function WithLegacy(legacy: map<int, nat>, s: Script, k: nat): map<int, nat> {
    match s.legacyVersion
    case None => legacy
    case Some(v) => legacy[v := k]
  }

  function TagIf(s: Script, k: Kind): set<Tag> {
    if s.kind == k then {s.tag} else {}
  }

  function TagsOfKind(files: seq<Script>, k: Kind): set<Tag> {
    set i | 0 <= i < |files| && files[i].kind == k :: files[i].tag
  }

  /** Version `v` belongs to the unbroken run of legacy versions that starts at 3. */
  predicate InChain(legacy: map<int, nat>, v: int) {
    v >= 3 && forall j :: 3 <= j <= v ==> j in legacy
  }

  ghost function VersionsFrom(legacy: map<int, nat>, i: int): set<int> {
    set v | v in legacy && v >= i
  }

  ghost predicate TagsIndexed(scripts: seq<Script>, byTag: map<Tag, nat>) {
    forall t :: t in byTag ==> byTag[t] < |scripts| && scripts[byTag[t]].tag == t
  }

  ghost predicate LegacyIndexed(scripts: seq<Script>, legacy: map<int, nat>) {
    forall v :: v in legacy ==> legacy[v] < |scripts| && scripts[legacy[v]].legacyVersion == Some(v)
  }

  ghost predicate Indexed(scripts: seq<Script>, byTag: map<Tag, nat>, legacy: map<int, nat>) {
    TagsIndexed(scripts, byTag) && LegacyIndexed(scripts, legacy)
  }

  ghost predicate Consistent(scripts: seq<Script>, byTag: map<Tag, nat>, legacy: map<int, nat>, tagSet: set<Tag>, untagSet: set<Tag>) {
    && Indexed(scripts, byTag, legacy)
    && byTag.Keys == tagSet + untagSet
    && forall t :: t in byTag ==> if scripts[byTag[t]].kind.Upgrade? then t in tagSet else t in untagSet
  }

  predicate SameButDepends(a: Script, b: Script) {
    a.tag == b.tag && a.fwdDepends == b.fwdDepends && a.kind == b.kind && a.legacyVersion == b.legacyVersion
  }

  /** The two lists of objects differ at most in `depends`. */
  ghost predicate OnlyDependsDiffer(was: seq<Script>, scripts: seq<Script>) {
    |scripts| == |was| && forall k :: 0 <= k < |was| ==> SameButDepends(was[k], scripts[k])
  }

  lemma OnlyDependsUpdate(was: seq<Script>, scripts: seq<Script>, k: nat, depends: seq<Tag>)
    requires OnlyDependsDiffer(was, scripts) && k < |scripts|
    ensures OnlyDependsDiffer(was, scripts[k := scripts[k].(depends := depends)])
  {
  }

  lemma StaysConsistent(was: seq<Script>, scripts: seq<Script>, byTag: map<Tag, nat>, legacy: map<int, nat>, tagSet: set<Tag>, untagSet: set<Tag>)
    requires OnlyDependsDiffer(was, scripts)
    ensures Consistent(was, byTag, legacy, tagSet, untagSet) <==> Consistent(scripts, byTag, legacy, tagSet, untagSet)
  {
  }

  /** The dependencies of object `k` once the linear legacy dependencies are in place. */
  ghost function Linked(scripts: seq<Script>, legacy: map<int, nat>, k: int): seq<Tag>
    requires 0 <= k < |scripts|
    requires forall v :: v in legacy ==> legacy[v] < |scripts|
    requires InChain(legacy, 3) ==> 2 in legacy
  {
    match scripts[k].legacyVersion
    case None => scripts[k].depends
    case Some(v) =>
      if InChain(legacy, v) && legacy[v] == k then
        assert v > 3 ==> InChain(legacy, v - 1) && v - 1 in legacy;
        [scripts[legacy[v - 1]].tag]
      else scripts[k].depends
  }

  lemma IndexedAppend(scripts: seq<Script>, byTag: map<Tag, nat>, legacy: map<int, nat>, s: Script)
    requires Indexed(scripts, byTag, legacy)
    ensures Indexed(scripts + [s], byTag[s.tag := |scripts|], WithLegacy(legacy, s, |scripts|))
  {
  }

  /** One more object, registered under its tag and its legacy version. */
  lemma ConsistentAppend(scripts: seq<Script>, byTag: map<Tag, nat>, legacy: map<int, nat>, tagSet: set<Tag>, untagSet: set<Tag>, s: Script)
    requires Consistent(scripts, byTag, legacy, tagSet, untagSet)
    ensures Consistent(scripts + [s], byTag[s.tag := |scripts|], WithLegacy(legacy, s, |scripts|),
                       tagSet + TagIf(s, Upgrade), untagSet + TagIf(s, Downgrade))
  {
    IndexedAppend(scripts, byTag, legacy, s);
    var more, index := scripts + [s], byTag[s.tag := |scripts|];
    forall t | t in index ensures if more[index[t]].kind.Upgrade? then t in tagSet + TagIf(s, Upgrade) else t in untagSet + TagIf(s, Downgrade) {
      if t != s.tag {
        assert more[index[t]] == scripts[byTag[t]];
      }
    }
  }

  lemma {:induction false} FilesConsistent(files: seq<Script>)
    ensures Consistent(files, ByTag(files), Legacy(files), TagsOfKind(files, Upgrade), TagsOfKind(files, Downgrade))
  {
    if files != [] {
      var n := |files| - 1;
      var before, f := files[..n], files[n];
      FilesConsistent(before);
      ConsistentAppend(before, ByTag(before), Legacy(before), TagsOfKind(before, Upgrade), TagsOfKind(before, Downgrade), f);
      assert files == before + [f];
      TagsOfKindStep(before, f, Upgrade);
      TagsOfKindStep(before, f, Downgrade);
    }
  }

  lemma FilesIndexed(files: seq<Script>)
    ensures Indexed(files, ByTag(files), Legacy(files))
    ensures ByTag(files).Keys == TagsOfKind(files, Upgrade) + TagsOfKind(files, Downgrade)
  {
    FilesConsistent(files);
  }

  /** A tag or a legacy version resolves to the last script that has it. */
  lemma {:induction false} ResolvesToLast(files: seq<Script>, i: nat)
    requires i < |files|
    ensures files[i].tag in ByTag(files) && i <= ByTag(files)[files[i].tag] < |files|
    ensures files[ByTag(files)[files[i].tag]].tag == files[i].tag
    ensures files[i].legacyVersion.Some? ==>
              var v := files[i].legacyVersion.value;
              v in Legacy(files) && i <= Legacy(files)[v] < |files| && files[Legacy(files)[v]].legacyVersion == Some(v)
  {
    FilesIndexed(files);
    var n := |files| - 1;
    if i < n {
      var before := files[..n];
      ResolvesToLast(before, i);
      assert before[i] == files[i];
    }
  }

  class Registry {
    var tagSet: set<Tag>
    var untagSet: set<Tag>
    var scripts: seq<Script>      // the Upgrader objects, by identity
    var byTag: map<Tag, nat>
    var legacy: map<int, nat>

    ghost predicate Valid()
      reads this
    {
      Consistent(scripts, byTag, legacy, tagSet, untagSet)
    }

    /** The registry as the apply loop sees it. */
    ghost function View(): (c: Catalog)
      requires Valid()
      reads this
      ensures c.Valid()
    {
      Catalog(tagSet, untagSet,
              map t | t in byTag :: Elements(scripts[byTag[t]].depends),
              map t | t in byTag :: scripts[byTag[t]].kind)
    }

    constructor ()
      ensures Valid() && Holds([])
    {
      tagSet, untagSet, scripts, byTag, legacy := {}, {}, [], map[], map[];
    }

    method NoteKind(s: Script)
      modifies this`tagSet, this`untagSet
      ensures tagSet == old(tagSet) + TagIf(s, Upgrade)
      ensures untagSet == old(untagSet) + TagIf(s, Downgrade)
    {
      if s.kind.Upgrade? {
        tagSet := tagSet + {s.tag};
      } else {
        untagSet := untagSet + {s.tag};
      }
    }

    /** The bookkeeping of `Upgrader.__init__`. */
    method Register(s: Script)
      requires Valid()
      modifies this
      ensures Valid()
      ensures scripts == old(scripts) + [s]
      ensures byTag == old(byTag)[s.tag := |old(scripts)|]
      ensures legacy == WithLegacy(old(legacy), s, |old(scripts)|)
      ensures tagSet == old(tagSet) + TagIf(s, Upgrade)
      ensures untagSet == old(untagSet) + TagIf(s, Downgrade)
    {
      var k := |scripts|;
      scripts := scripts + [s];
      NoteKind(s);
      if s.legacyVersion.Some? {
        legacy := legacy[s.legacyVersion.value := k];
      }
      byTag := byTag[s.tag := k];
      assert Valid() by {
        ConsistentAppend(old(scripts), old(byTag), old(legacy), old(tagSet), old(untagSet), s);
      }
    }

    ghost predicate Holds(files: seq<Script>)
      reads this
    {
      && scripts == files && byTag == ByTag(files) && legacy == Legacy(files)
      && tagSet == TagsOfKind(files, Upgrade) && untagSet == TagsOfKind(files, Downgrade)
    }

    method RegisterAll(files: seq<Script>)
      requires Valid() && Holds([])
      modifies this
      ensures Valid() && Holds(files)
    {
      for n := 0 to |files|
        invariant Valid() && Holds(files[..n])
      {
        Register(files[n]);
        RegisterMore(files, n);
      }
      assert files[..|files|] == files;
    }

    /** Lines 172-175: each legacy version from 3 on depends on the one before and on nothing else. */
    method LinkLegacy() returns (ok: bool)
      requires Valid()
      modifies this`scripts
      ensures ok <==> (3 in legacy ==> 2 in legacy)
      ensures ok ==> Valid() && |scripts| == |old(scripts)| &&
                     forall k {:trigger Linked(old(scripts), legacy, k)} :: 0 <= k < |scripts| ==>
                       scripts[k] == old(scripts)[k].(depends := Linked(old(scripts), legacy, k))
    {
      ghost var was := scripts;
      var i := 3;
      while i in legacy
        invariant i >= 3 && forall j :: 3 <= j < i ==> j in legacy
        invariant i > 3 ==> 2 in legacy
        invariant LinkedUpTo(was, scripts, legacy, i)
        decreases VersionsFrom(legacy, i)
      {
        if i - 1 !in legacy {
          return false;
        }
        assert i in VersionsFrom(legacy, i) && i !in VersionsFrom(legacy, i + 1);
        assert VersionsFrom(legacy, i + 1) <= VersionsFrom(legacy, i);
        LinkStep(was, scripts, legacy, i);
        var k := legacy[i];
        scripts := scripts[k := scripts[k].(depends := [scripts[legacy[i - 1]].tag])];
        i := i + 1;
      }
      ChainLinked(was, scripts, legacy, i);
      assert OnlyDependsDiffer(was, scripts) by {
        forall k | 0 <= k < |was| ensures SameButDepends(was[k], scripts[k]) {
          assert scripts[k] == was[k].(depends := Linked(was, legacy, k));
        }
      }
      StaysConsistent(was, scripts, byTag, legacy, tagSet, untagSet);
      return true;
    }

    /** Lines 179-186: append `tag` to the dependencies of every target it names. */
    method ReverseForward(tag: Tag, ghost was: seq<Script>, ghost done: set<Tag>) returns (ok: bool)
      requires tag in byTag && done <= byTag.Keys
      requires TagsIndexed(was, byTag) && Reversed(was, scripts, byTag, done)
      modifies this`scripts
      ensures ok <==> Elements(was[byTag[tag]].fwdDepends) <= byTag.Keys
      ensures ok ==> Reversed(was, scripts, byTag, done + {tag})
    {
      var fwd := scripts[byTag[tag]].fwdDepends;
      assert fwd == was[byTag[tag]].fwdDepends;
      ReversedToPartly(was, scripts, byTag, done, tag);
      var j := 0;
      while j < |fwd|
        invariant PartlyReversed(was, scripts, byTag, done, tag, j)
        invariant Elements(fwd[..j]) <= byTag.Keys
      {
        var fd := fwd[j];
        if fd !in byTag {
          assert fd in Elements(fwd);
          return false;
        }
        ElementsPrefix(fwd, j);
        AppendStep(was, scripts, byTag, done, tag, j);
        var k := byTag[fd];
        scripts := scripts[k := scripts[k].(depends := scripts[k].depends + [tag])];
        j := j + 1;
      }
      assert fwd[..j] == fwd;
      PartlyToReversed(was, scripts, byTag, done, tag);
      return true;
    }

    /** Lines 187-192. */
    method Audit(tag: Tag) returns (ok: bool)
      requires tag in byTag && byTag[tag] < |scripts|
      ensures ok <==> Elements(scripts[byTag[tag]].depends) <= byTag.Keys
    {
      var depends := scripts[byTag[tag]].depends;
      for j := 0 to |depends|
        invariant forall i :: 0 <= i < j ==> depends[i] in byTag
      {
        if depends[j] !in byTag {
          assert depends[j] in Elements(depends);
          return false;
        }
      }
      return true;
    }

    method ResolveTag(tag: Tag, ghost was: seq<Script>, ghost done: set<Tag>) returns (ok: bool)
      requires tag in byTag && done <= byTag.Keys
      requires TagsIndexed(was, byTag) && Reversed(was, scripts, byTag, done)
      modifies this`scripts
      ensures ok <==> NamesKnown(was, byTag, tag)
      ensures ok ==> Reversed(was, scripts, byTag, done + {tag})
    {
      ok := ReverseForward(tag, was, done);
      if ok {
        ClaimsAreKnown(was, scripts, byTag, done + {tag}, tag);
        ok := Audit(tag);
      }
    }

    method ResolveAll() returns (ok: bool)
      requires TagsIndexed(scripts, byTag)
      modifies this`scripts
      ensures ok <==> Closed(old(scripts), byTag)
      ensures ok ==> Reversed(old(scripts), scripts, byTag, byTag.Keys)
    {
      ghost var was := scripts;
      ghost var done: set<Tag> := {};
      var rest := byTag.Keys;
      NothingReversed(was, byTag);
      while rest != {}
        invariant done + rest == byTag.Keys
        invariant Reversed(was, scripts, byTag, done) && AllKnown(was, byTag, done)
        decreases rest
      {
        var tag :| tag in rest;
        ok := ResolveTag(tag, was, done);
        if !ok {
          return;
        }
        OneLess(byTag.Keys, done, rest, tag);
        rest, done := rest - {tag}, done + {tag};
      }
      return true;
    }

    /** Lines 178-192, for any iteration order of `by_tag`: reverse every forward dependency onto its
        target and refuse names that no script defines. */
    method ResolveAndAudit() returns (ok: bool)
      requires Valid()
      modifies this`scripts
      ensures ok <==> Closed(old(scripts), byTag)
      ensures ok ==> Valid() && Reversed(old(scripts), scripts, byTag, byTag.Keys)
    {
      ok := ResolveAll();
      if ok {
        StaysConsistent(old(scripts), scripts, byTag, legacy, tagSet, untagSet);
      }
    }

    /** `Upgrader.load_all`. */
    method LoadAll(files: seq<Script>) returns (ok: bool)
      requires Valid() && Holds([])
      modifies this
      ensures ok <==> Loadable(files)
      ensures ok ==> Valid() && View() == Loaded(files) && View().Audited()
    {
      RegisterAll(files);
      FilesIndexed(files);
      ok := LinkLegacy();
      if ok {
        ghost var linked := scripts;
        assert linked == LinkedFiles(files) by {
          forall k | 0 <= k < |files| ensures linked[k] == LinkedFiles(files)[k] {
            assert linked[k] == files[k].(depends := Linked(files, legacy, k));
          }
        }
        ok := ResolveAndAudit();
        if ok {
          ReversedView(linked, scripts, byTag);
          LoadedIsAudited(files);
        }
      }
    }

    /** Lines 226-228: the tags a legacy version stands for; an unknown version number is an error. */
    method LegacyTags(version: int) returns (r: Option<set<Tag>>)
      requires Valid()
      ensures r.Some? <==> forall i :: 2 <= i <= version ==> i in legacy
      ensures r.Some? ==> r.value == set i | 2 <= i <= version && i in legacy :: scripts[legacy[i]].tag
    {
      var tags: set<Tag> := {};
      var i := 2;
      while i <= version
        invariant 2 <= i && (i <= version + 1 || i == 2)
        invariant forall j :: 2 <= j < i ==> j in legacy
        invariant tags == set j | 2 <= j < i && j in legacy :: scripts[legacy[j]].tag
      {
        if i !in legacy {
          return None;
        }
        tags := tags + {scripts[legacy[i]].tag};
        i := i + 1;
      }
      return Some(tags);
    }
  }

  lemma RegisterMore(files: seq<Script>, n: nat)
    requires n < |files|
    ensures var before, more, f := files[..n], files[..n + 1], files[n];
            && more == before + [f]
            && ByTag(more) == ByTag(before)[f.tag := n]
            && Legacy(more) == WithLegacy(Legacy(before), f, n)
            && TagsOfKind(more, Upgrade) == TagsOfKind(before, Upgrade) + TagIf(f, Upgrade)
            && TagsOfKind(more, Downgrade) == TagsOfKind(before, Downgrade) + TagIf(f, Downgrade)
  {
    assert files[..n + 1] == files[..n] + [files[n]];
    RegisterStep(files[..n], files[n]);
    TagsOfKindStep(files[..n], files[n], Upgrade);
    TagsOfKindStep(files[..n], files[n], Downgrade);
  }

  lemma RegisterStep(files: seq<Script>, f: Script)
    ensures var more := files + [f];
            && ByTag(more) == ByTag(files)[f.tag := |files|]
            && Legacy(more) == WithLegacy(Legacy(files), f, |files|)
  {
    var more := files + [f];
    assert more[..|more| - 1] == files && more[|more| - 1] == f;
  }

  lemma TagsOfKindStep(files: seq<Script>, f: Script, k: Kind)
    ensures TagsOfKind(files + [f], k) == TagsOfKind(files, k) + TagIf(f, k)
  {
    var more := files + [f];
    assert more[|files|] == f;
    forall t | t in TagsOfKind(files, k) ensures t in TagsOfKind(more, k) {
      var i :| 0 <= i < |files| && files[i].kind == k && files[i].tag == t;
      assert more[i].kind == k && more[i].tag == t;
    }
  }

  ghost function LinkedBelow(scripts: seq<Script>, legacy: map<int, nat>, i: int, k: int): seq<Tag>
    requires 0 <= k < |scripts|
    requires forall v :: v in legacy ==> legacy[v] < |scripts|
  {
    match scripts[k].legacyVersion
    case None => scripts[k].depends
    case Some(v) =>
      if 3 <= v < i && v in legacy && v - 1 in legacy && legacy[v] == k then [scripts[legacy[v - 1]].tag]
      else scripts[k].depends
  }

  ghost predicate LinkedUpTo(was: seq<Script>, scripts: seq<Script>, legacy: map<int, nat>, i: int)
    requires forall v :: v in legacy ==> legacy[v] < |was|
  {
    |scripts| == |was| && forall k {:trigger LinkedBelow(was, legacy, i, k)} :: 0 <= k < |was| ==> scripts[k] == was[k].(depends := LinkedBelow(was, legacy, i, k))
  }

  lemma LinkStep(was: seq<Script>, scripts: seq<Script>, legacy: map<int, nat>, i: int)
    requires LegacyIndexed(was, legacy) && i >= 3 && i in legacy && i - 1 in legacy
    requires LinkedUpTo(was, scripts, legacy, i)
    ensures LinkedUpTo(was, scripts[legacy[i] := scripts[legacy[i]].(depends := [scripts[legacy[i - 1]].tag])], legacy, i + 1)
  {
    var next := scripts[legacy[i] := scripts[legacy[i]].(depends := [scripts[legacy[i - 1]].tag])];
    forall k | 0 <= k < |was| ensures next[k] == was[k].(depends := LinkedBelow(was, legacy, i + 1, k)) {
      assert scripts[k] == was[k].(depends := LinkedBelow(was, legacy, i, k));
      if k == legacy[i] {
        var p := legacy[i - 1];
        assert scripts[p] == was[p].(depends := LinkedBelow(was, legacy, i, p));
      } else {
        assert LinkedBelow(was, legacy, i + 1, k) == LinkedBelow(was, legacy, i, k);
      }
    }
  }

  lemma ChainLinked(was: seq<Script>, scripts: seq<Script>, legacy: map<int, nat>, i: int)
    requires LegacyIndexed(was, legacy) && (3 in legacy ==> 2 in legacy)
    requires i >= 3 && i !in legacy && forall j :: 3 <= j < i ==> j in legacy
    requires LinkedUpTo(was, scripts, legacy, i)
    ensures |scripts| == |was|
    ensures forall k {:trigger Linked(was, legacy, k)} :: 0 <= k < |was| ==> scripts[k] == was[k].(depends := Linked(was, legacy, k))
  {
    forall k | 0 <= k < |was| ensures LinkedBelow(was, legacy, i, k) == Linked(was, legacy, k) {
      match was[k].legacyVersion {
        case None =>
        case Some(v) =>
          assert InChain(legacy, v) <==> 3 <= v < i;
      }
    }
  }

  /** Tags in `among` whose script names `t` in `fwd_depends`. */
  ghost function Claims(scripts: seq<Script>, byTag: map<Tag, nat>, among: set<Tag>, t: Tag): set<Tag>
    requires among <= byTag.Keys && forall s :: s in byTag ==> byTag[s] < |scripts|
  {
    set s | s in among && t in scripts[byTag[s]].fwdDepends
  }

  ghost predicate NamesKnown(scripts: seq<Script>, byTag: map<Tag, nat>, t: Tag)
    requires t in byTag && byTag[t] < |scripts|
  {
    var s := scripts[byTag[t]];
    Elements(s.fwdDepends) <= byTag.Keys && Elements(s.depends) <= byTag.Keys
  }

  ghost predicate AllKnown(scripts: seq<Script>, byTag: map<Tag, nat>, tags: set<Tag>)
    requires tags <= byTag.Keys && forall t :: t in byTag ==> byTag[t] < |scripts|
  {
    forall t :: t in tags ==> NamesKnown(scripts, byTag, t)
  }

  ghost predicate Closed(scripts: seq<Script>, byTag: map<Tag, nat>)
    requires forall t :: t in byTag ==> byTag[t] < |scripts|
  {
    AllKnown(scripts, byTag, byTag.Keys)
  }


  /** Forward dependencies of the tags in `done` have been reversed and nothing else has changed. */
  ghost predicate Reversed(was: seq<Script>, scripts: seq<Script>, byTag: map<Tag, nat>, done: set<Tag>)
    requires done <= byTag.Keys && forall t :: t in byTag ==> byTag[t] < |was|
  {
    && OnlyDependsDiffer(was, scripts)
    && (forall t :: t in byTag ==> Elements(scripts[byTag[t]].depends) == Elements(was[byTag[t]].depends) + Claims(was, byTag, done, t))
  }

  lemma OneLess(tags: set<Tag>, done: set<Tag>, rest: set<Tag>, tag: Tag)
    requires done + rest == tags && tag in rest
    ensures (done + {tag}) + (rest - {tag}) == tags && rest - {tag} < rest
  {
  }

  lemma NothingReversed(was: seq<Script>, byTag: map<Tag, nat>)
    requires forall t :: t in byTag ==> byTag[t] < |was|
    ensures Reversed(was, was, byTag, {})
  {
    forall t | t in byTag ensures Claims(was, byTag, {}, t) == {} {
    }
  }

  /** Reversing forward dependencies adds only names of scripts. */
  lemma ClaimsAreKnown(was: seq<Script>, scripts: seq<Script>, byTag: map<Tag, nat>, done: set<Tag>, tag: Tag)
    requires tag in byTag && done <= byTag.Keys && forall t :: t in byTag ==> byTag[t] < |was|
    requires Reversed(was, scripts, byTag, done)
    ensures Elements(scripts[byTag[tag]].depends) <= byTag.Keys <==> Elements(was[byTag[tag]].depends) <= byTag.Keys
  {
  }

  /** The dependencies of `t` when `tag` has reversed its first `j` forward dependencies. */
  ghost function PartDeps(was: seq<Script>, byTag: map<Tag, nat>, done: set<Tag>, tag: Tag, j: nat, t: Tag): set<Tag>
    requires done <= byTag.Keys && tag in byTag && t in byTag && forall t :: t in byTag ==> byTag[t] < |was|
    requires j <= |was[byTag[tag]].fwdDepends|
  {
    Elements(was[byTag[t]].depends) + Claims(was, byTag, done, t) + (if t in was[byTag[tag]].fwdDepends[..j] then {tag} else {})
  }

  ghost predicate PartlyReversed(was: seq<Script>, scripts: seq<Script>, byTag: map<Tag, nat>, done: set<Tag>, tag: Tag, j: nat)
    requires done <= byTag.Keys && tag in byTag && forall t :: t in byTag ==> byTag[t] < |was|
  {
    && OnlyDependsDiffer(was, scripts)
    && j <= |was[byTag[tag]].fwdDepends|
    && (forall t :: t in byTag ==> Elements(scripts[byTag[t]].depends) == PartDeps(was, byTag, done, tag, j, t))
  }

  lemma ReversedToPartly(was: seq<Script>, scripts: seq<Script>, byTag: map<Tag, nat>, done: set<Tag>, tag: Tag)
    requires done <= byTag.Keys && tag in byTag && forall t :: t in byTag ==> byTag[t] < |was|
    requires Reversed(was, scripts, byTag, done)
    ensures PartlyReversed(was, scripts, byTag, done, tag, 0)
  {
  }

  lemma PartlyToReversed(was: seq<Script>, scripts: seq<Script>, byTag: map<Tag, nat>, done: set<Tag>, tag: Tag)
    requires done <= byTag.Keys && tag in byTag && forall t :: t in byTag ==> byTag[t] < |was|
    requires PartlyReversed(was, scripts, byTag, done, tag, |was[byTag[tag]].fwdDepends|)
    ensures Reversed(was, scripts, byTag, done + {tag})
  {
    var fwd := was[byTag[tag]].fwdDepends;
    assert fwd[..|fwd|] == fwd;
    forall t | t in byTag
      ensures Claims(was, byTag, done + {tag}, t) == Claims(was, byTag, done, t) + (if t in fwd then {tag} else {})
    {
    }
  }

  lemma PartDepsStep(was: seq<Script>, byTag: map<Tag, nat>, done: set<Tag>, tag: Tag, j: nat, t: Tag)
    requires done <= byTag.Keys && tag in byTag && t in byTag && forall t :: t in byTag ==> byTag[t] < |was|
    requires j < |was[byTag[tag]].fwdDepends|
    ensures PartDeps(was, byTag, done, tag, j + 1, t) ==
            PartDeps(was, byTag, done, tag, j, t) + (if t == was[byTag[tag]].fwdDepends[j] then {tag} else {})
  {
    var fwd := was[byTag[tag]].fwdDepends;
    assert fwd[..j + 1] == fwd[..j] + [fwd[j]];
  }

  lemma AppendStep(was: seq<Script>, scripts: seq<Script>, byTag: map<Tag, nat>, done: set<Tag>, tag: Tag, j: nat)
    requires done <= byTag.Keys && tag in byTag
    requires forall t :: t in byTag ==> byTag[t] < |was| && was[byTag[t]].tag == t
    requires PartlyReversed(was, scripts, byTag, done, tag, j) && j < |was[byTag[tag]].fwdDepends|
    requires was[byTag[tag]].fwdDepends[j] in byTag
    ensures var k := byTag[was[byTag[tag]].fwdDepends[j]];
            PartlyReversed(was, scripts[k := scripts[k].(depends := scripts[k].depends + [tag])], byTag, done, tag, j + 1)
  {
    var fd := was[byTag[tag]].fwdDepends[j];
    var k := byTag[fd];
    var next := scripts[k := scripts[k].(depends := scripts[k].depends + [tag])];
    var more := scripts[k].depends + [tag];
    ElementsAppend(scripts[k].depends, tag);
    OnlyDependsUpdate(was, scripts, k, more);
    forall t | t in byTag ensures Elements(next[byTag[t]].depends) == PartDeps(was, byTag, done, tag, j + 1, t) {
      PartDepsStep(was, byTag, done, tag, j, t);
      if t == fd {
        assert next[byTag[t]].depends == more;
      } else {
        assert byTag[t] != k;
        assert next[byTag[t]] == scripts[byTag[t]];
      }
    }
  }

  // ---------- The catalog that loading yields ----------

  ghost function LinkedFiles(files: seq<Script>): seq<Script>
    requires 3 in Legacy(files) ==> 2 in Legacy(files)
  {
    FilesIndexed(files);
    seq(|files|, k requires 0 <= k < |files| => files[k].(depends := Linked(files, Legacy(files), k)))
  }

  /** The scripts load exactly when the legacy chain has its start and every name is defined. */
  ghost predicate Loadable(files: seq<Script>) {
    FilesIndexed(files);
    && (3 in Legacy(files) ==> 2 in Legacy(files))
    && Closed(LinkedFiles(files), ByTag(files))
  }

  /** A tag depends on what its script lists and on every tag that claims it as a forward dependency. */
  ghost function Loaded(files: seq<Script>): Catalog
    requires Loadable(files)
  {
    FilesIndexed(files);
    var linked, byTag := LinkedFiles(files), ByTag(files);
    Catalog(TagsOfKind(files, Upgrade), TagsOfKind(files, Downgrade),
            map t | t in byTag :: Elements(linked[byTag[t]].depends) + Claims(linked, byTag, byTag.Keys, t),
            map t | t in byTag :: linked[byTag[t]].kind)
  }

  /** Script `k` stands for a version of the chain, so that its own list is replaced. */
  ghost predicate Replaced(files: seq<Script>, legacy: map<int, nat>, k: nat)
    requires k < |files|
  {
    var v := files[k].legacyVersion;
    v.Some? && v.value >= 3 && (forall j :: 3 <= j <= v.value ==> j in legacy) && legacy[v.value] == k
  }

  lemma LinkedCases(files: seq<Script>, legacy: map<int, nat>, k: nat)
    requires k < |files| && (3 in legacy ==> 2 in legacy) && forall v :: v in legacy ==> legacy[v] < |files|
    ensures !Replaced(files, legacy, k) ==> Linked(files, legacy, k) == files[k].depends
    ensures Replaced(files, legacy, k) ==>
              var v := files[k].legacyVersion.value - 1;
              v in legacy && Linked(files, legacy, k) == [files[legacy[v]].tag]
  {
  }

  lemma LinkedScript(files: seq<Script>, legacy: map<int, nat>, k: nat)
    requires k < |files| && legacy == Legacy(files) && (3 in legacy ==> 2 in legacy)
    ensures forall v :: v in legacy ==> legacy[v] < |files|
    ensures LinkedFiles(files)[k] == files[k].(depends := Linked(files, legacy, k))
  {
    FilesIndexed(files);
  }

  /** What script `k` itself asks for: the version before it in the chain or else what it lists. */
  ghost predicate Asks(files: seq<Script>, k: nat, d: Tag)
    requires k < |files|
  {
    if Replaced(files, Legacy(files), k) then
      var v := files[k].legacyVersion.value - 1;
      v in Legacy(files) && Legacy(files)[v] < |files| && d == files[Legacy(files)[v]].tag
    else d in files[k].depends
  }

  /** The script that `d` resolves to names `t` as a forward dependency. */
  ghost predicate ClaimsForward(files: seq<Script>, d: Tag, t: Tag) {
    d in ByTag(files) && ByTag(files)[d] < |files| && t in files[ByTag(files)[d]].fwdDepends
  }

  lemma ClaimsIff(files: seq<Script>, linked: seq<Script>, byTag: map<Tag, nat>, t: Tag, d: Tag)
    requires 3 in Legacy(files) ==> 2 in Legacy(files)
    requires linked == LinkedFiles(files) && byTag == ByTag(files) && forall s :: s in byTag ==> byTag[s] < |linked|
    ensures d in Claims(linked, byTag, byTag.Keys, t) <==> ClaimsForward(files, d, t)
  {
    if d in byTag {
      LinkedScript(files, Legacy(files), byTag[d]);
    }
  }

  /** What a tag depends on once loaded, read off the scripts: what its script asks for, and every tag that
      claims it as a forward dependency. */
  lemma LoadedDependsIff(files: seq<Script>, k: nat, d: Tag)
    requires Loadable(files) && k < |files| && files[k].tag in ByTag(files) && ByTag(files)[files[k].tag] == k
    ensures files[k].tag in Loaded(files).deps
    ensures d in Loaded(files).deps[files[k].tag] <==> Asks(files, k, d) || ClaimsForward(files, d, files[k].tag)
  {
    FilesIndexed(files);
    var linked, byTag, t := LinkedFiles(files), ByTag(files), files[k].tag;
    ClaimsIff(files, linked, byTag, t, d);
    AsksIff(files, k, d);
    assert Loaded(files).deps[t] == Elements(linked[k].depends) + Claims(linked, byTag, byTag.Keys, t);
  }

  lemma AsksIff(files: seq<Script>, k: nat, d: Tag)
    requires k < |files| && (3 in Legacy(files) ==> 2 in Legacy(files))
    ensures d in Elements(LinkedFiles(files)[k].depends) <==> Asks(files, k, d)
  {
    LinkedScript(files, Legacy(files), k);
    LinkedCases(files, Legacy(files), k);
  }

  ghost predicate Defined(files: seq<Script>, names: seq<Tag>) {
    forall i :: 0 <= i < |names| ==> names[i] in ByTag(files)
  }

  /** The scripts load exactly when version 3 does not stand without version 2 and the scripts that tags
      resolve to name only defined tags, in the lists that are not replaced. */
  lemma LoadableIff(files: seq<Script>)
    ensures Loadable(files) <==>
              && (3 in Legacy(files) ==> 2 in Legacy(files))
              && forall k {:trigger files[k]} :: 0 <= k < |files| && files[k].tag in ByTag(files) && ByTag(files)[files[k].tag] == k ==>
                   Defined(files, files[k].fwdDepends) && (Replaced(files, Legacy(files), k) || Defined(files, files[k].depends))
  {
    FilesIndexed(files);
    if 3 in Legacy(files) ==> 2 in Legacy(files) {
      forall k: nat | k < |files| && files[k].tag in ByTag(files) && ByTag(files)[files[k].tag] == k
        ensures NamesKnown(LinkedFiles(files), ByTag(files), files[k].tag) <==>
                Defined(files, files[k].fwdDepends) && (Replaced(files, Legacy(files), k) || Defined(files, files[k].depends))
      {
        ScriptIsClosedIff(files, k);
      }
    }
  }

  lemma ScriptIsClosedIff(files: seq<Script>, k: nat)
    requires 3 in Legacy(files) ==> 2 in Legacy(files)
    requires k < |files| && files[k].tag in ByTag(files) && ByTag(files)[files[k].tag] == k
    ensures NamesKnown(LinkedFiles(files), ByTag(files), files[k].tag) <==>
            Defined(files, files[k].fwdDepends) && (Replaced(files, Legacy(files), k) || Defined(files, files[k].depends))
  {
    LinkedScript(files, Legacy(files), k);
    LinkedCases(files, Legacy(files), k);
    KnownIff(files, LinkedFiles(files)[k].fwdDepends);
    KnownIff(files, LinkedFiles(files)[k].depends);
    if Replaced(files, Legacy(files), k) {
      ResolvesToLast(files, Legacy(files)[files[k].legacyVersion.value - 1]);
    }
  }

  lemma KnownIff(files: seq<Script>, names: seq<Tag>)
    ensures Elements(names) <= ByTag(files).Keys <==> Defined(files, names)
  {
    if Elements(names) <= ByTag(files).Keys {
      assert forall i :: 0 <= i < |names| ==> names[i] in Elements(names);
    }
  }

  lemma ReversedView(linked: seq<Script>, scripts: seq<Script>, byTag: map<Tag, nat>)
    requires forall t :: t in byTag ==> byTag[t] < |linked|
    requires Reversed(linked, scripts, byTag, byTag.Keys)
    ensures (map t | t in byTag :: Elements(scripts[byTag[t]].depends)) ==
            (map t | t in byTag :: Elements(linked[byTag[t]].depends) + Claims(linked, byTag, byTag.Keys, t))
    ensures (map t | t in byTag :: scripts[byTag[t]].kind) == (map t | t in byTag :: linked[byTag[t]].kind)
  {
    forall t | t in byTag ensures scripts[byTag[t]].kind == linked[byTag[t]].kind {
      assert SameButDepends(linked[byTag[t]], scripts[byTag[t]]);
    }
  }

  lemma LoadedKinds(files: seq<Script>)
    requires Loadable(files)
    ensures forall t :: t in ByTag(files) ==>
              t in Loaded(files).kind && t in TagsOfKind(files, Loaded(files).kind[t])
  {
    FilesIndexed(files);
    forall t | t in ByTag(files) ensures t in TagsOfKind(files, files[ByTag(files)[t]].kind) {
      assert files[ByTag(files)[t]].tag == t;
    }
  }

  lemma LoadedDeps(files: seq<Script>)
    requires Loadable(files)
    ensures forall t :: t in ByTag(files) ==> t in Loaded(files).deps && Loaded(files).deps[t] <= ByTag(files).Keys
  {
    FilesIndexed(files);
    forall t | t in ByTag(files) ensures Loaded(files).deps[t] <= ByTag(files).Keys {
      assert NamesKnown(LinkedFiles(files), ByTag(files), t);
    }
  }

  /** After a successful load no dependency dangles. */
  lemma LoadedIsAudited(files: seq<Script>)
    requires Loadable(files)
    ensures Loaded(files).Valid() && Loaded(files).Audited()
  {
    LoadedKinds(files);
    LoadedDeps(files);
    FilesIndexed(files);
  }
}
