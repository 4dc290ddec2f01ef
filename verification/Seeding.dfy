/** Authoring, validating and activating the rule packs against the posting engine's rule store,
    by scripts that can be cut off before any server call and run again. */
module Seeding {
  import opened Sums

  datatype Status = Draft | Validated | Active | Superseded

  /** The packs of one legal entity; valid says whether the content passes full validation. */
  datatype Pack = Pack(packKey: string, semver: string, valid: bool)

  /** A stored version; its id is its position in the table. */
  datatype Version = Version(packKey: string, semver: string, valid: bool, status: Status, createdBy: string,
    activatedBy: Option<string>)

  const AUTHOR := "ce12-author"
  const ACTIVATOR := "ce12-activator"

  // ----- the rule store -----

  /** The first version from position i on with this pack key and semver. */
  function FindFrom(vs: seq<Version>, packKey: string, semver: string, i: nat): (r: Option<nat>)
    requires i <= |vs|
    ensures r.Some? ==> i <= r.value < |vs| && vs[r.value].packKey == packKey && vs[r.value].semver == semver
    ensures r.None? ==> forall k | i <= k < |vs| :: vs[k].packKey != packKey || vs[k].semver != semver
    decreases |vs| - i
  {
    if i == |vs| then None
    else if vs[i].packKey == packKey && vs[i].semver == semver then Some(i)
    else FindFrom(vs, packKey, semver, i + 1)
  }

  /** The version with this pack key and semver; the pair is unique. */
  function Find(vs: seq<Version>, packKey: string, semver: string): (r: Option<nat>)
    ensures r.Some? ==> r.value < |vs| && vs[r.value].packKey == packKey && vs[r.value].semver == semver
    ensures r.None? ==> forall i | 0 <= i < |vs| :: vs[i].packKey != packKey || vs[i].semver != semver
  {
    FindFrom(vs, packKey, semver, 0)
  }

  function Create(vs: seq<Version>, pack: Pack, actor: string): Option<seq<Version>> {
    if Find(vs, pack.packKey, pack.semver).Some? then None
    else Some(vs + [Version(pack.packKey, pack.semver, pack.valid, Draft, actor, None)])
  }

  function Validate(vs: seq<Version>, id: nat): seq<Version>
    requires id < |vs|
  {
    if vs[id].status == Draft && vs[id].valid then vs[id := vs[id].(status := Validated)] else vs
  }

  /** Activation supersedes whatever version of the pack was active. */
  function Supersede(vs: seq<Version>, packKey: string): seq<Version> {
    seq(|vs|, i requires 0 <= i < |vs| =>
      if vs[i].packKey == packKey && vs[i].status == Active then vs[i].(status := Superseded) else vs[i])
  }

  function Activate(vs: seq<Version>, id: nat, actor: string): Option<seq<Version>>
    requires id < |vs|
  {
    if actor == vs[id].createdBy || vs[id].status != Validated then None
    else Some(Supersede(vs, vs[id].packKey)[id := vs[id].(status := Active, activatedBy := Some(actor))])
  }

  /** What the store keeps whatever its callers do: one version per key and semver, at most one
      active version per pack, and nobody activates their own version. */
  ghost predicate StoreOk(vs: seq<Version>) {
    && (forall i, j | 0 <= i < j < |vs| :: vs[i].packKey != vs[j].packKey || vs[i].semver != vs[j].semver)
    && (forall i, j | 0 <= i < j < |vs| && vs[i].status == vs[j].status == Active :: vs[i].packKey != vs[j].packKey)
    && (forall i | 0 <= i < |vs| && vs[i].status == Active ::
      vs[i].valid && vs[i].activatedBy.Some? && vs[i].activatedBy.value != vs[i].createdBy)
    && (forall i | 0 <= i < |vs| && vs[i].status == Validated :: vs[i].valid)
  }

  lemma CreateKeepsTheRules(vs: seq<Version>, pack: Pack, actor: string)
    requires StoreOk(vs)
    ensures Create(vs, pack, actor).Some? ==> StoreOk(Create(vs, pack, actor).value)
  {
  }

  lemma ActivateKeepsTheRules(vs: seq<Version>, id: nat, actor: string)
    requires StoreOk(vs) && id < |vs|
    ensures Activate(vs, id, actor).Some? ==> StoreOk(Activate(vs, id, actor).value)
  {
  }

  // ----- the scripts -----

  /** Resume looks the version up and goes on from where it is; SkipActive only recognises an active
      version; CreateAlways never looks. */
  datatype Script = Resume | SkipActive | CreateAlways

  datatype Outcome = Completed | CutOff | Failed

  datatype Run = Run(versions: seq<Version>, calls: nat, outcome: Outcome)

  function FromValidated(vs: seq<Version>, id: nat, calls: nat): Run
    requires id < |vs|
  {
    if calls == 0 then Run(vs, 0, CutOff)
    else match Activate(vs, id, ACTIVATOR)
      case None => Run(vs, calls - 1, Failed)
      case Some(after) => Run(after, calls - 1, Completed)
  }

  function FromDraft(vs: seq<Version>, id: nat, calls: nat): Run
    requires id < |vs|
  {
    if calls == 0 then Run(vs, 0, CutOff)
    else if !vs[id].valid then Run(Validate(vs, id), calls - 1, Failed)
    else FromValidated(Validate(vs, id), id, calls - 1)
  }

  function FromNothing(vs: seq<Version>, pack: Pack, calls: nat): Run {
    if calls == 0 then Run(vs, 0, CutOff)
    else match Create(vs, pack, AUTHOR)
      case None => Run(vs, calls - 1, Failed)
      case Some(after) => FromDraft(after, |vs|, calls - 1)
  }

  /** One pack, with so many server calls left. When the lookup needs an entity the scripts do not send,
      it is refused: Resume gives up, SkipActive goes on to create. */
  function SeedPack(script: Script, lookupNeedsEntity: bool, vs: seq<Version>, pack: Pack, calls: nat): Run {
    if script == CreateAlways then FromNothing(vs, pack, calls)
    else if calls == 0 then Run(vs, 0, CutOff)
    else if lookupNeedsEntity then
      (if script == Resume then Run(vs, calls - 1, Failed) else FromNothing(vs, pack, calls - 1))
    else match Find(vs, pack.packKey, pack.semver)
      case None => FromNothing(vs, pack, calls - 1)
      case Some(id) =>
        if vs[id].status == Active then Run(vs, calls - 1, Completed)
        else if script == Resume then FromDraft(vs, id, calls - 1)
        else FromNothing(vs, pack, calls - 1)
  }

  function Seed(script: Script, lookupNeedsEntity: bool, vs: seq<Version>, packs: seq<Pack>, calls: nat): Run
    decreases |packs|
  {
    if packs == [] then Run(vs, calls, Completed) else
      var run := SeedPack(script, lookupNeedsEntity, vs, packs[0], calls);
      if run.outcome == Completed then Seed(script, lookupNeedsEntity, run.versions, packs[1..], run.calls) else run
  }

  /** The rule store as the scripts drive it, call by call. */
  class RuleStore {
    const lookupNeedsEntity: bool
    var versions: seq<Version>

    constructor (lookupNeedsEntity: bool)
      ensures StoreOk(versions) && versions == [] && this.lookupNeedsEntity == lookupNeedsEntity
    {
      this.lookupNeedsEntity := lookupNeedsEntity;
      versions := [];
    }

    method CreateRulePackVersion(pack: Pack, actor: string) returns (id: Option<nat>)
      requires StoreOk(versions)
      modifies this
      ensures StoreOk(versions)
      ensures match Create(old(versions), pack, actor)
              case None => id == None && versions == old(versions)
              case Some(after) => id == Some(|old(versions)|) && versions == after
    {
      CreateKeepsTheRules(versions, pack, actor);
      if Find(versions, pack.packKey, pack.semver).Some? { return None; }
      versions := versions + [Version(pack.packKey, pack.semver, pack.valid, Draft, actor, None)];
      return Some(|versions| - 1);
    }

    method ValidateVersion(id: nat) returns (valid: bool)
      requires StoreOk(versions) && id < |versions|
      modifies this
      ensures StoreOk(versions) && versions == Validate(old(versions), id) && valid == old(versions)[id].valid
    {
      assert StoreOk(Validate(versions, id));
      valid := versions[id].valid;
      if versions[id].status == Draft && valid {
        versions := versions[id := versions[id].(status := Validated)];
      }
    }

    method ActivateVersion(id: nat, actor: string) returns (ok: bool)
      requires StoreOk(versions) && id < |versions|
      modifies this
      ensures StoreOk(versions)
      ensures match Activate(old(versions), id, actor)
              case None => !ok && versions == old(versions)
              case Some(after) => ok && versions == after
    {
      ActivateKeepsTheRules(versions, id, actor);
      if actor == versions[id].createdBy { return false; }
      if versions[id].status != Validated { return false; }
      var version := versions[id];
      versions := Supersede(versions, version.packKey)[id := version.(status := Active, activatedBy := Some(actor))];
      return true;
    }

    /** The restartable script of floorplan-service, cut off when its calls run out. */
    method AuthorValidateActivate(pack: Pack, calls: nat) returns (left: nat, outcome: Outcome)
      requires StoreOk(versions)
      modifies this
      ensures StoreOk(versions)
      ensures Run(versions, left, outcome) == SeedPack(Resume, lookupNeedsEntity, old(versions), pack, calls)
    {
      left := calls;
      if left == 0 { return left, CutOff; }
      left := left - 1;
      if lookupNeedsEntity { return left, Failed; }
      var existing := Find(versions, pack.packKey, pack.semver);
      if existing.Some? && versions[existing.value].status == Active { return left, Completed; }
      var versionId;
      if existing.Some? {
        versionId := existing.value;
      } else {
        if left == 0 { return left, CutOff; }
        left := left - 1;
        var created := CreateRulePackVersion(pack, AUTHOR);
        versionId := created.value;
      }
      if left == 0 { return left, CutOff; }
      left := left - 1;
      var valid := ValidateVersion(versionId);
      if !valid { return left, Failed; }
      if left == 0 { return left, CutOff; }
      left := left - 1;
      var activated := ActivateVersion(versionId, ACTIVATOR);
      return left, if activated then Completed else Failed;
    }

    method SeedAll(packs: seq<Pack>, calls: nat) returns (left: nat, outcome: Outcome)
      requires StoreOk(versions)
      modifies this
      ensures StoreOk(versions)
      ensures Run(versions, left, outcome) == Seed(Resume, lookupNeedsEntity, old(versions), packs, calls)
    {
      left, outcome := calls, Completed;
      var i := 0;
      while i < |packs|
        invariant 0 <= i <= |packs| && StoreOk(versions) && outcome == Completed
        invariant Seed(Resume, lookupNeedsEntity, old(versions), packs, calls)
          == Seed(Resume, lookupNeedsEntity, versions, packs[i..], left)
      {
        assert packs[i..][1..] == packs[i + 1..];
        left, outcome := AuthorValidateActivate(packs[i], left);
        if outcome != Completed { return; }
        i := i + 1;
      }
    }
  }

  // ----- one pack -----

  /** The store once the pack is seeded: its version active, whichever was active superseded. */
  function Finish(vs: seq<Version>, pack: Pack): seq<Version> {
    match Find(vs, pack.packKey, pack.semver)
    case None =>
      Supersede(vs, pack.packKey)
      + [Version(pack.packKey, pack.semver, pack.valid, Active, AUTHOR, Some(ACTIVATOR))]
    case Some(id) =>
      if vs[id].status == Active then vs
      else Supersede(vs, pack.packKey)[id := vs[id].(status := Active, activatedBy := Some(ACTIVATOR))]
  }

  predicate IsActive(vs: seq<Version>, pack: Pack) {
    match Find(vs, pack.packKey, pack.semver)
    case None => false
    case Some(id) => vs[id].status == Active
  }

  /** The version is not there yet and its content is valid, or it is active, or it can still be activated:
      a superseded version cannot, nor one that the scripts' own activator wrote. */
  predicate CanResume(vs: seq<Version>, pack: Pack) {
    match Find(vs, pack.packKey, pack.semver)
    case None => pack.valid
    case Some(id) =>
      vs[id].status == Active
      || (vs[id].status != Superseded && vs[id].valid && vs[id].createdBy != ACTIVATOR)
  }

  /** What a script needs of the store to get through a pack. */
  predicate Seedable(script: Script, lookupNeedsEntity: bool, vs: seq<Version>, pack: Pack) {
    match script
    case Resume => !lookupNeedsEntity && CanResume(vs, pack)
    case SkipActive =>
      (match Find(vs, pack.packKey, pack.semver)
       case None => pack.valid
       case Some(id) => !lookupNeedsEntity && vs[id].status == Active)
    case CreateAlways => pack.valid && Find(vs, pack.packKey, pack.semver).None?
  }

  /** No version went away, and nothing was written outside the packs with these keys. */
  ghost predicate Only(vs: seq<Version>, after: seq<Version>, keys: set<string>) {
    && |vs| <= |after|
    && (forall i | 0 <= i < |vs| :: after[i].packKey == vs[i].packKey && after[i].semver == vs[i].semver)
    && (forall i | 0 <= i < |vs| && vs[i].packKey !in keys :: after[i] == vs[i])
    && (forall i | |vs| <= i < |after| :: after[i].packKey in keys)
  }

  lemma OtherPacksAreLeft(vs: seq<Version>, after: seq<Version>, keys: set<string>, pack: Pack)
    requires StoreOk(vs) && StoreOk(after) && Only(vs, after, keys) && pack.packKey !in keys
    ensures Find(after, pack.packKey, pack.semver) == Find(vs, pack.packKey, pack.semver)
    ensures CanResume(after, pack) == CanResume(vs, pack) && IsActive(after, pack) == IsActive(vs, pack)
    ensures forall script, needs :: Seedable(script, needs, after, pack) == Seedable(script, needs, vs, pack)
  {
    var before, now := Find(vs, pack.packKey, pack.semver), Find(after, pack.packKey, pack.semver);
    if before.Some? {
      assert after[before.value] == vs[before.value];
    }
    if now.Some? {
      assert now.value < |vs| && after[now.value] == vs[now.value];
    }
  }

  /** The store keeps its rules and its other packs, and the pack can be seeded from it exactly when it could before,
      with the same end. */
  ghost predicate Kept(vs: seq<Version>, after: seq<Version>, pack: Pack) {
    && StoreOk(after)
    && Only(vs, after, {pack.packKey})
    && (CanResume(after, pack) <==> CanResume(vs, pack))
    && (CanResume(vs, pack) ==> Finish(after, pack) == Finish(vs, pack))
  }

  /** What calls on behalf of one pack leave, by the store they began with. */
  ghost predicate Leaves(vs: seq<Version>, pack: Pack, run: Run) {
    && Kept(vs, run.versions, pack)
    && (run.outcome == Completed ==> run.versions == Finish(vs, pack) && IsActive(run.versions, pack))
  }

  lemma KeptTwice(vs: seq<Version>, mid: seq<Version>, after: seq<Version>, pack: Pack)
    requires Kept(vs, mid, pack) && Kept(mid, after, pack)
    ensures Kept(vs, after, pack)
  {
  }

  lemma SupersedeBeforeDraft(vs: seq<Version>, v: Version, packKey: string)
    requires v.status == Draft
    ensures Supersede(vs + [v], packKey) == Supersede(vs, packKey) + [v]
  {
  }

  lemma FinishAfterCreate(vs: seq<Version>, pack: Pack)
    requires Find(vs, pack.packKey, pack.semver).None?
    requires Find(Create(vs, pack, AUTHOR).value, pack.packKey, pack.semver) == Some(|vs|)
    ensures Finish(Create(vs, pack, AUTHOR).value, pack) == Finish(vs, pack)
  {
    var after := Create(vs, pack, AUTHOR).value;
    SupersedeBeforeDraft(vs, after[|vs|], pack.packKey);
  }

  lemma CreateKeeps(vs: seq<Version>, pack: Pack)
    requires StoreOk(vs) && Find(vs, pack.packKey, pack.semver).None?
    ensures var after := Create(vs, pack, AUTHOR).value;
            && Kept(vs, after, pack) && Finish(after, pack) == Finish(vs, pack)
            && Find(after, pack.packKey, pack.semver) == Some(|vs|)
            && CanResume(after, pack) == pack.valid
  {
    var after := Create(vs, pack, AUTHOR).value;
    CreateKeepsTheRules(vs, pack, AUTHOR);
    assert Find(after, pack.packKey, pack.semver) == Some(|vs|) by {
      assert after[|vs|].packKey == pack.packKey && after[|vs|].semver == pack.semver;
    }
    assert CanResume(after, pack) == pack.valid by {
      assert "ce12-author"[6] == 'u' && "ce12-activator"[6] == 'c';
    }
    FinishAfterCreate(vs, pack);
  }

  lemma ValidateKeeps(vs: seq<Version>, id: nat, pack: Pack)
    requires StoreOk(vs) && Find(vs, pack.packKey, pack.semver) == Some(id) && vs[id].status != Active
    ensures var after := Validate(vs, id);
            Kept(vs, after, pack) && Finish(after, pack) == Finish(vs, pack)
            && Find(after, pack.packKey, pack.semver) == Some(id)
  {
    var after := Validate(vs, id);
    assert StoreOk(after);
    assert after[id].packKey == pack.packKey && after[id].semver == pack.semver;
    assert Finish(after, pack) == Finish(vs, pack);
  }

  lemma ActivateFinishes(vs: seq<Version>, id: nat, pack: Pack)
    requires StoreOk(vs) && Find(vs, pack.packKey, pack.semver) == Some(id)
    requires vs[id].status == Validated && vs[id].createdBy != ACTIVATOR
    ensures Activate(vs, id, ACTIVATOR) == Some(Finish(vs, pack))
    ensures Kept(vs, Finish(vs, pack), pack) && IsActive(Finish(vs, pack), pack)
  {
    ActivateKeepsTheRules(vs, id, ACTIVATOR);
    var after := Finish(vs, pack);
    assert after[id].packKey == pack.packKey && after[id].semver == pack.semver;
  }

  lemma FromValidatedLeaves(vs: seq<Version>, id: nat, pack: Pack, calls: nat)
    requires StoreOk(vs) && Find(vs, pack.packKey, pack.semver) == Some(id) && vs[id].status in {Validated, Superseded}
    ensures var run := FromValidated(vs, id, calls);
            && Leaves(vs, pack, run)
            && (run.outcome == Completed ==> run.calls + 1 == calls && CanResume(vs, pack))
            && (calls >= 1 && CanResume(vs, pack) ==> run.outcome == Completed)
  {
    if vs[id].status == Validated && vs[id].createdBy != ACTIVATOR {
      ActivateFinishes(vs, id, pack);
    }
  }

  lemma FromDraftLeaves(vs: seq<Version>, id: nat, pack: Pack, calls: nat)
    requires StoreOk(vs) && Find(vs, pack.packKey, pack.semver) == Some(id) && vs[id].status != Active
    ensures var run := FromDraft(vs, id, calls);
            && Leaves(vs, pack, run)
            && (run.outcome == Completed ==> run.calls + 2 == calls && CanResume(vs, pack))
            && (calls >= 2 && CanResume(vs, pack) ==> run.outcome == Completed)
  {
    if calls > 0 {
      ValidateKeeps(vs, id, pack);
      if vs[id].valid {
        var after := Validate(vs, id);
        FromValidatedLeaves(after, id, pack, calls - 1);
        KeptTwice(vs, after, FromValidated(after, id, calls - 1).versions, pack);
      }
    }
  }

  lemma FromNothingLeaves(vs: seq<Version>, pack: Pack, calls: nat)
    requires StoreOk(vs)
    ensures var run := FromNothing(vs, pack, calls);
            && Leaves(vs, pack, run)
            && (run.outcome == Completed ==> run.calls + 3 == calls && Seedable(CreateAlways, true, vs, pack))
            && (calls >= 3 && Seedable(CreateAlways, true, vs, pack) ==> run.outcome == Completed)
  {
    if calls > 0 && Find(vs, pack.packKey, pack.semver).None? {
      CreateKeeps(vs, pack);
      var after := Create(vs, pack, AUTHOR).value;
      FromDraftLeaves(after, |vs|, pack, calls - 1);
      KeptTwice(vs, after, FromDraft(after, |vs|, calls - 1).versions, pack);
    }
  }

  /** The restartable script on a version that is there but not active. */
  lemma StartedPackLeaves(vs: seq<Version>, id: nat, pack: Pack, calls: nat)
    requires StoreOk(vs) && Find(vs, pack.packKey, pack.semver) == Some(id) && vs[id].status != Active && calls > 0
    ensures var run := SeedPack(Resume, false, vs, pack, calls);
            && Leaves(vs, pack, run)
            && (run.outcome == Completed ==> run.calls + 4 >= calls && CanResume(vs, pack))
            && (calls >= 4 && CanResume(vs, pack) ==> run.outcome == Completed)
  {
    FromDraftLeaves(vs, id, pack, calls - 1);
  }

  lemma NothingKeepsActive(vs: seq<Version>, pack: Pack, calls: nat)
    requires IsActive(vs, pack)
    ensures FromNothing(vs, pack, calls).versions == vs
  {
  }

  lemma PackLeaves(script: Script, needs: bool, vs: seq<Version>, pack: Pack, calls: nat)
    requires StoreOk(vs)
    ensures var run := SeedPack(script, needs, vs, pack, calls);
            && Leaves(vs, pack, run)
            && (run.outcome == Completed ==> run.calls + 4 >= calls && Seedable(script, needs, vs, pack))
            && (calls >= 4 && Seedable(script, needs, vs, pack) ==> run.outcome == Completed)
            && (IsActive(vs, pack) ==> run.versions == vs)
  {
    if script == CreateAlways || calls == 0 {
      FromNothingLeaves(vs, pack, calls);
    } else if script == Resume && !needs && Find(vs, pack.packKey, pack.semver).Some? && !IsActive(vs, pack) {
      StartedPackLeaves(vs, Find(vs, pack.packKey, pack.semver).value, pack, calls);
    } else {
      FromNothingLeaves(vs, pack, calls - 1);
    }
  }

  /** No pack gains calls: one that was cut off has used them all, one that failed at least one. */
  lemma CallsAreSpent(script: Script, needs: bool, vs: seq<Version>, pack: Pack, calls: nat)
    ensures var run := SeedPack(script, needs, vs, pack, calls);
            && run.calls <= calls
            && (run.outcome == CutOff ==> run.calls == 0)
            && (run.outcome == Failed ==> run.calls < calls)
  {
  }

  // ----- whole runs -----

  predicate DistinctPacks(packs: seq<Pack>) {
    forall i, j | 0 <= i < j < |packs| :: packs[i].packKey != packs[j].packKey
  }

  function Keys(packs: seq<Pack>): set<string> {
    set p | p in packs :: p.packKey
  }

  predicate AllSeedable(script: Script, lookupNeedsEntity: bool, vs: seq<Version>, packs: seq<Pack>) {
    forall p | p in packs :: Seedable(script, lookupNeedsEntity, vs, p)
  }

  predicate AllCanResume(vs: seq<Version>, packs: seq<Pack>) {
    forall p | p in packs :: CanResume(vs, p)
  }

  predicate AllActive(vs: seq<Version>, packs: seq<Pack>) {
    forall p | p in packs :: IsActive(vs, p)
  }

  function FinishAll(vs: seq<Version>, packs: seq<Pack>): seq<Version>
    decreases |packs|
  {
    if packs == [] then vs else FinishAll(Finish(vs, packs[0]), packs[1..])
  }

  /** What a run over all packs leaves, by the store it began with. */
  ghost predicate LeavesAll(vs: seq<Version>, packs: seq<Pack>, after: seq<Version>) {
    && StoreOk(after)
    && Only(vs, after, Keys(packs))
    && (forall p | p in packs :: CanResume(after, p) == CanResume(vs, p))
    && (AllCanResume(vs, packs) ==> FinishAll(after, packs) == FinishAll(vs, packs))
    && (AllActive(vs, packs) ==> after == vs)
  }

  lemma FirstOfDistinct(packs: seq<Pack>)
    requires DistinctPacks(packs) && packs != []
    ensures DistinctPacks(packs[1..]) && packs[0].packKey !in Keys(packs[1..])
    ensures Keys(packs) == {packs[0].packKey} + Keys(packs[1..])
    ensures forall p :: p in packs <==> p == packs[0] || p in packs[1..]
  {
    assert packs == [packs[0]] + packs[1..];
  }

  /** The first pack's calls do not touch the others. */
  lemma RestIsLeft(vs: seq<Version>, after: seq<Version>, packs: seq<Pack>)
    requires DistinctPacks(packs) && packs != [] && StoreOk(vs) && StoreOk(after)
    requires Only(vs, after, {packs[0].packKey})
    ensures forall p | p in packs[1..] ::
      CanResume(after, p) == CanResume(vs, p) && IsActive(after, p) == IsActive(vs, p)
    ensures forall script, needs, p | p in packs[1..] ::
      Seedable(script, needs, after, p) == Seedable(script, needs, vs, p)
  {
    FirstOfDistinct(packs);
    forall p | p in packs[1..]
      ensures CanResume(after, p) == CanResume(vs, p) && IsActive(after, p) == IsActive(vs, p)
      ensures forall script, needs :: Seedable(script, needs, after, p) == Seedable(script, needs, vs, p)
    {
      OtherPacksAreLeft(vs, after, {packs[0].packKey}, p);
    }
  }

  /** One pack was seeded, then the others ran. */
  lemma FirstThenRest(vs: seq<Version>, mid: seq<Version>, after: seq<Version>, packs: seq<Pack>)
    requires DistinctPacks(packs) && packs != [] && StoreOk(vs) && Kept(vs, mid, packs[0])
    requires mid == Finish(vs, packs[0]) && IsActive(mid, packs[0]) && CanResume(vs, packs[0])
    requires LeavesAll(mid, packs[1..], after)
    requires IsActive(vs, packs[0]) ==> mid == vs
    ensures LeavesAll(vs, packs, after) && IsActive(after, packs[0])
  {
    FirstOfDistinct(packs);
    RestIsLeft(vs, mid, packs);
    OtherPacksAreLeft(mid, after, Keys(packs[1..]), packs[0]);
    OnlyTwice(vs, mid, after, {packs[0].packKey}, Keys(packs[1..]));
    assert Finish(after, packs[0]) == after;
    assert AllCanResume(vs, packs) ==> AllCanResume(mid, packs[1..]);
    assert AllActive(vs, packs) ==> AllActive(mid, packs[1..]);
  }

  lemma OnlyTwice(vs: seq<Version>, mid: seq<Version>, after: seq<Version>, first: set<string>, second: set<string>)
    requires Only(vs, mid, first) && Only(mid, after, second)
    ensures Only(vs, after, first + second)
  {
  }

  /** Only the first pack was touched, and it did not complete. */
  lemma FirstAlone(vs: seq<Version>, after: seq<Version>, packs: seq<Pack>)
    requires DistinctPacks(packs) && packs != [] && StoreOk(vs) && Kept(vs, after, packs[0])
    requires IsActive(vs, packs[0]) ==> after == vs
    ensures LeavesAll(vs, packs, after)
  {
    FirstOfDistinct(packs);
    RestIsLeft(vs, after, packs);
    assert AllCanResume(vs, packs) ==> CanResume(vs, packs[0]);
  }

  /** A run over all packs, by the store it began with. */
  ghost predicate RunLeaves(
      script: Script, needs: bool, vs: seq<Version>, packs: seq<Pack>, calls: nat, run: Run)
  {
    && LeavesAll(vs, packs, run.versions)
    && (run.outcome == Completed ==>
          && AllSeedable(script, needs, vs, packs)
          && AllActive(run.versions, packs)
          && run.versions == FinishAll(vs, packs))
    && (calls >= 4 * |packs| && AllSeedable(script, needs, vs, packs) ==> run.outcome == Completed)
  }

  lemma FirstCompleted(
      script: Script, needs: bool, vs: seq<Version>, packs: seq<Pack>, calls: nat, first: Run, run: Run)
    requires DistinctPacks(packs) && packs != [] && StoreOk(vs) && Leaves(vs, packs[0], first)
    requires first.outcome == Completed && first.calls + 4 >= calls && Seedable(script, needs, vs, packs[0])
    requires CanResume(vs, packs[0]) && (IsActive(vs, packs[0]) ==> first.versions == vs)
    requires RunLeaves(script, needs, first.versions, packs[1..], first.calls, run)
    ensures RunLeaves(script, needs, vs, packs, calls, run)
  {
    FirstOfDistinct(packs);
    RestIsLeft(vs, first.versions, packs);
    assert AllSeedable(script, needs, vs, packs) <==> AllSeedable(script, needs, first.versions, packs[1..]);
    FirstThenRest(vs, first.versions, run.versions, packs);
  }

  lemma {:induction false} SeedLeaves(script: Script, needs: bool, vs: seq<Version>, packs: seq<Pack>, calls: nat)
    requires StoreOk(vs) && DistinctPacks(packs)
    ensures RunLeaves(script, needs, vs, packs, calls, Seed(script, needs, vs, packs, calls))
    decreases |packs|
  {
    if packs != [] {
      FirstOfDistinct(packs);
      PackLeaves(script, needs, vs, packs[0], calls);
      var first := SeedPack(script, needs, vs, packs[0], calls);
      if first.outcome == Completed {
        SeedLeaves(script, needs, first.versions, packs[1..], first.calls);
        var run := Seed(script, needs, first.versions, packs[1..], first.calls);
        FirstCompleted(script, needs, vs, packs, calls, first, run);
      } else {
        FirstAlone(vs, first.versions, packs);
        assert packs[0] in packs;
      }
    }
  }

  /** A run with enough calls completes exactly when the script can get through every pack as the store stands. */
  lemma {:induction false} FullRunCompletesExactly(script: Script, needs: bool, vs: seq<Version>, packs: seq<Pack>,
    calls: nat)
    requires StoreOk(vs) && DistinctPacks(packs) && calls >= 4 * |packs|
    ensures Seed(script, needs, vs, packs, calls).outcome == Completed <==> AllSeedable(script, needs, vs, packs)
  {
    SeedLeaves(script, needs, vs, packs, calls);
  }

  // ----- crashes and re-runs -----

  /** Any number of runs, each cut off after so many calls. */
  function Runs(script: Script, needs: bool, vs: seq<Version>, packs: seq<Pack>, budgets: seq<nat>): seq<Version>
    decreases |budgets|
  {
    if budgets == [] then vs
    else Runs(script, needs, Seed(script, needs, vs, packs, budgets[0]).versions, packs, budgets[1..])
  }

  /** Whatever the script and the cuts, the store keeps its rules and all its versions, other packs stay as they were,
      a pack that could be seeded still can, to the same end, and a finished store no longer changes. */
  lemma {:induction false} CutRunsOnlyMakeProgress(
      script: Script, needs: bool, vs: seq<Version>, packs: seq<Pack>, budgets: seq<nat>)
    requires StoreOk(vs) && DistinctPacks(packs)
    ensures LeavesAll(vs, packs, Runs(script, needs, vs, packs, budgets))
    decreases |budgets|
  {
    if budgets != [] {
      SeedLeaves(script, needs, vs, packs, budgets[0]);
      CutRunsOnlyMakeProgress(script, needs, Seed(script, needs, vs, packs, budgets[0]).versions, packs, budgets[1..]);
    }
  }

  /** The pack's version is the active one, valid, and not activated by its author. */
  ghost predicate Seeded(vs: seq<Version>, pack: Pack) {
    exists id | 0 <= id < |vs| ::
      && vs[id].packKey == pack.packKey && vs[id].semver == pack.semver
      && vs[id].status == Active && vs[id].valid
      && vs[id].activatedBy.Some? && vs[id].activatedBy.value != vs[id].createdBy
      && forall j | 0 <= j < |vs| && j != id && vs[j].packKey == pack.packKey :: vs[j].status != Active
  }

  /** Crash-restart convergence: from any store, after any number of runs of the restartable script cut off at any
      calls, one run with enough calls completes exactly when the server answers its lookups and every pack could be
      resumed at the start; it then leaves every pack seeded and the others as they were, the same as without the cuts,
      and further runs, cut or not, change nothing. */
  lemma {:induction false} CrashRestartConverges(
      needs: bool, vs: seq<Version>, packs: seq<Pack>, budgets: seq<nat>, calls: nat, later: seq<nat>)
    requires StoreOk(vs) && DistinctPacks(packs) && calls >= 4 * |packs|
    ensures var run := Seed(Resume, needs, Runs(Resume, needs, vs, packs, budgets), packs, calls);
            && (run.outcome == Completed <==> packs == [] || (!needs && AllCanResume(vs, packs)))
            && (run.outcome == Completed ==>
                  && (forall p | p in packs :: Seeded(run.versions, p))
                  && Only(vs, run.versions, Keys(packs))
                  && run.versions == Seed(Resume, needs, vs, packs, calls).versions
                  && Runs(Resume, needs, run.versions, packs, later) == run.versions)
  {
    var cut := Runs(Resume, needs, vs, packs, budgets);
    var run := Seed(Resume, needs, cut, packs, calls);
    CutRunsOnlyMakeProgress(Resume, needs, vs, packs, budgets);
    SeedLeaves(Resume, needs, cut, packs, calls);
    assert packs != [] ==> packs[0] in packs;
    assert AllCanResume(cut, packs) == AllCanResume(vs, packs);
    if run.outcome == Completed {
      SeedLeaves(Resume, needs, vs, packs, calls);
      OnlyTwice(vs, cut, run.versions, Keys(packs), Keys(packs));
      CutRunsOnlyMakeProgress(Resume, needs, run.versions, packs, later);
      forall p | p in packs ensures Seeded(run.versions, p) {
        ActiveIsSeeded(run.versions, p);
      }
    }
  }

  lemma ActiveIsSeeded(vs: seq<Version>, pack: Pack)
    requires StoreOk(vs) && IsActive(vs, pack)
    ensures Seeded(vs, pack)
  {
    var id := Find(vs, pack.packKey, pack.semver).value;
    assert vs[id].packKey == pack.packKey;
  }

  /** Seeding another version of a pack supersedes the active one, which the scripts then never get through again. */
  lemma SupersededIsNeverSeeded(vs: seq<Version>, older: Pack, newer: Pack)
    requires StoreOk(vs) && IsActive(vs, older) && !IsActive(vs, newer)
    requires older.packKey == newer.packKey && older.semver != newer.semver
    ensures forall script, needs :: !Seedable(script, needs, Finish(vs, newer), older)
  {
    var id := Find(vs, older.packKey, older.semver).value;
    var after := Finish(vs, newer);
    assert after[id] == vs[id].(status := Superseded);
    var found := Find(after, older.packKey, older.semver);
    assert found.Some?;
    assert found.value < |vs| && found.value == id;
  }

  // ----- a crash on the way from an empty store -----

  /** The version of pack i after n steps; each pack takes three: create, validate, activate. */
  function VersionAt(packs: seq<Pack>, n: nat, i: nat): Version
    requires i < |packs|
  {
    var active := 3 * i + 3 <= n;
    Version(packs[i].packKey, packs[i].semver, packs[i].valid,
      if active then Active else if n == 3 * i + 1 then Draft else Validated, AUTHOR, if active then Some(ACTIVATOR)
      else None)
  }

  /** The store after n steps through the packs in order. */
  function Progress(packs: seq<Pack>, n: nat): seq<Version>
    requires n <= 3 * |packs|
  {
    seq((n + 2) / 3, i requires 0 <= i < (n + 2) / 3 => VersionAt(packs, n, i))
  }

  lemma FindInProgress(packs: seq<Pack>, n: nat, i: nat)
    requires DistinctPacks(packs) && n <= 3 * |packs| && i < |packs|
    ensures Find(Progress(packs, n), packs[i].packKey, packs[i].semver) == if 3 * i < n then Some(i) else None
  {
    var vs := Progress(packs, n);
    assert forall k | 0 <= k < |vs| :: vs[k].packKey == packs[k].packKey;
    if 3 * i < n {
      assert vs[i].packKey == packs[i].packKey && vs[i].semver == packs[i].semver;
    }
  }

  lemma CreateStep(packs: seq<Pack>, k: nat)
    requires DistinctPacks(packs) && k < |packs|
    ensures Create(Progress(packs, 3 * k), packs[k], AUTHOR) == Some(Progress(packs, 3 * k + 1))
  {
    FindInProgress(packs, 3 * k, k);
    assert Progress(packs, 3 * k) + [VersionAt(packs, 3 * k + 1, k)] == Progress(packs, 3 * k + 1);
  }

  lemma ActivateStep(packs: seq<Pack>, k: nat)
    requires DistinctPacks(packs) && k < |packs|
    ensures Activate(Progress(packs, 3 * k + 2), k, ACTIVATOR) == Some(Progress(packs, 3 * k + 3))
  {
    var vs := Progress(packs, 3 * k + 2);
    assert "ce12-author"[6] == 'u' && "ce12-activator"[6] == 'c';
    assert Supersede(vs, packs[k].packKey) == vs by {
      forall i | 0 <= i < |vs| ensures Supersede(vs, packs[k].packKey)[i] == vs[i] {}
    }
    assert vs[k := vs[k].(status := Active, activatedBy := Some(ACTIVATOR))] == Progress(packs, 3 * k + 3);
  }

  predicate AllValid(packs: seq<Pack>) {
    forall i | 0 <= i < |packs| :: packs[i].valid
  }

  lemma ProgressKeepsTheRules(packs: seq<Pack>, n: nat)
    requires DistinctPacks(packs) && AllValid(packs) && n <= 3 * |packs|
    ensures StoreOk(Progress(packs, n))
  {
    assert "ce12-author"[6] == 'u' && "ce12-activator"[6] == 'c';
  }

  /** Whether a script, run in full, completes from where earlier runs left the store. */
  predicate Restartable(script: Script, lookupNeedsEntity: bool, n: nat) {
    match script
    case Resume => !lookupNeedsEntity
    case SkipActive => n == 0 || (!lookupNeedsEntity && n % 3 == 0)
    case CreateAlways => n == 0
  }

  /** Which scripts can be run again after a crash that left n steps done: the floorplan script always, if the lookup
      works at all; the vehicle script only between packs; the deal and reserve scripts only from an empty store. */
  lemma {:induction false} CompletesExactlyWhenRestartable(script: Script, lookupNeedsEntity: bool, packs: seq<Pack>,
    n: nat, calls: nat)
    requires DistinctPacks(packs) && AllValid(packs) && packs != [] && n <= 3 * |packs| && calls >= 4 * |packs|
    ensures Seed(script, lookupNeedsEntity, Progress(packs, n), packs, calls).outcome == Completed
       <==> Restartable(script, lookupNeedsEntity, n)
  {
    var vs := Progress(packs, n);
    ProgressKeepsTheRules(packs, n);
    FullRunCompletesExactly(script, lookupNeedsEntity, vs, packs, calls);
    assert "ce12-author"[6] == 'u' && "ce12-activator"[6] == 'c';
    forall i | 0 <= i < |packs|
      ensures Find(vs, packs[i].packKey, packs[i].semver) == (if 3 * i < n then Some(i) else None)
      ensures 3 * i < n ==> vs[i] == VersionAt(packs, n, i)
    {
      FindInProgress(packs, n, i);
    }
    assert packs[0] in packs;
    if n % 3 != 0 {
      assert packs[n / 3] in packs;
    }
  }

  /** A new pack takes one step a call: that many calls leave that many steps. */
  lemma NewPackSteps(packs: seq<Pack>, k: nat, calls: nat)
    requires DistinctPacks(packs) && AllValid(packs) && k < |packs|
    ensures FromNothing(Progress(packs, 3 * k), packs[k], calls)
         == Run(Progress(packs, 3 * k + Min(calls, 3)), Max(0, calls - 3), if calls >= 3 then Completed else CutOff)
  {
    CreateStep(packs, k);
    ActivateStep(packs, k);
    assert |Progress(packs, 3 * k)| == k && packs[k] in packs;
    assert Validate(Progress(packs, 3 * k + 1), k) == Progress(packs, 3 * k + 2);
  }
}
