/** Create-or-tune reconciliation of secret and auth engine mounts: api/v1alpha1/utils/vaultengineobject.go
    and controllers/vaultresourcecontroller/vaultengineresourcereconciler.go. */
module EngineMounts {
  import opened Text
  import opened Paths
  import opened Basics

  const SECRET_ENGINES := "sys/mounts"
  const AUTH_ENGINES := "sys/auth"

  /** The parts of a mount resource that determine its path. */
  datatype MountSpec = MountSpec(path: string, specName: string, name: string) {
    function EffectiveName(): string {
      if specName != "" then specName else name
    }

    /** The name of a resource has no slash, and the pattern of `spec.name` asks for a letter or digit. */
    predicate Named() {
      exists c <- EffectiveName() :: c != '/'
    }

    /** SecretEngineMount: the path component is optional. */
    function SecretMountPoint(): string {
      if path != "" then path + "/" + EffectiveName() else EffectiveName()
    }

    /** AuthEngineMount: the path component is always there. */
    function AuthMountPoint(): string {
      path + "/" + EffectiveName()
    }
  }

  function ApiPath(listPath: string, mountPoint: string): string {
    CleansePath(listPath + "/" + mountPoint)
  }

  /** Vault lists a mount under its path followed by one slash. */
  predicate Canonical(mounts: map<string, string>) {
    forall k <- mounts :: Trim(k, '/') != "" && k == Trim(k, '/') + "/"
  }

  datatype Lookup = Lookup(accessor: string, found: bool)

  /** The answer of a search through the listing, whichever key the iteration comes upon first. */
  predicate IsLookup(mounts: map<string, string>, key: string, r: Lookup) {
    if r.found then exists k <- mounts :: Trim(k, '/') == key && mounts[k] == r.accessor
    else r.accessor == "" && forall k <- mounts :: Trim(k, '/') != key
  }

  /** In a canonical listing the search has one possible answer: the mount stored under the key. */
  lemma LookupIsExact(mounts: map<string, string>, key: string, r: Lookup)
    requires Canonical(mounts) && IsLookup(mounts, key, r)
    requires Trimmed(key) && key != ""
    ensures r == if key + "/" in mounts then Lookup(mounts[key + "/"], true) else Lookup("", false)
  {
    TrimOfKey(key);
  }

  lemma TrimOfKey(key: string)
    requires Trimmed(key)
    ensures Trim(key + "/", '/') == key
  {
    assert key + "/" == Slashes(0) + key + Slashes(1);
    TrimOf(0, key, 1);
  }

  lemma TrimKeepsWord(s: string, w: string)
    requires exists c <- w :: c != '/'
    ensures Trim(s + w, '/') != ""
  {
    var lead, trail := TrimSplits(s + w);
    var c :| c in w && c != '/';
    var i :| 0 <= i < |w| && w[i] == c;
    assert (Slashes(lead) + Trim(s + w, '/') + Slashes(trail))[|s| + i] == c;
  }

  /** A named resource is looked up under a proper key: its cleansed mount point. */
  lemma KeyOfNamedMount(listPath: string, spec: MountSpec)
    requires spec.Named() && (listPath == SECRET_ENGINES || listPath == AUTH_ENGINES)
    ensures forall x | x == spec.SecretMountPoint() || x == spec.AuthMountPoint() ::
      && LookupKey(listPath, ApiPath(listPath, x)) == CleansePath(x)
      && Trimmed(CleansePath(x)) && CleansePath(x) != ""
  {
    assert Clean(listPath) by {
      forall i | 0 <= i <= |listPath| ensures !("//" <= listPath[i..]) {
        if i + 1 < |listPath| {
          assert listPath[i..][0] == listPath[i] && listPath[i..][1] == listPath[i + 1];
        }
      }
    }
    forall x | x == spec.SecretMountPoint() || x == spec.AuthMountPoint()
      ensures LookupKey(listPath, ApiPath(listPath, x)) == CleansePath(x)
      ensures Trimmed(CleansePath(x)) && CleansePath(x) != ""
    {
      LookupKeyIsCleansedMountPath(listPath, x);
      CleanseHalvesInterior(x);
      HalveEnds(Trim(x, '/'));
      var w := spec.EffectiveName();
      if x == w {
        assert "" + w == w;
        TrimKeepsWord("", w);
      } else {
        TrimKeepsWord(spec.path + "/", w);
      }
    }
  }

  lemma CleanJoin(p: string, n: string)
    requires Clean(p) && p != "" && n != "" && '/' !in n
    ensures Clean(p + "/" + n)
  {
    var s := p + "/" + n;
    assert forall j | 0 <= j < |n| :: n[j] in n && s[|p| + 1 + j] == n[j];
    forall i | 0 <= i <= |s|
      ensures !("//" <= s[i..])
    {
      if i + 1 < |p| {
        assert !("//" <= p[i..]) && p[i..][0] == s[i] && p[i..][1] == s[i + 1];
      }
      if i + 1 < |s| {
        assert s[i..][0] == s[i] && s[i..][1] == s[i + 1];
      }
    }
  }

  /** A secret or auth engine with an ordinary path is mounted there under its name, a secret engine without
      a path under its name alone; the name in the spec takes precedence over that of the resource. */
  lemma MountPointIs(spec: MountSpec, name: string)
    requires name == (if spec.specName != "" then spec.specName else spec.name) && name != "" && '/' !in name
    ensures spec.path == "" ==> CleansePath(spec.SecretMountPoint()) == name
    ensures spec.path != "" && Clean(spec.path) ==>
      && CleansePath(spec.SecretMountPoint()) == spec.path + "/" + name
      && CleansePath(spec.AuthMountPoint()) == spec.path + "/" + name
  {
    if spec.path == "" {
      assert name[0] in name && name[|name| - 1] in name;
      assert Clean(name) by {
        forall i | 0 <= i <= |name|
          ensures !("//" <= name[i..])
        {
          assert i < |name| ==> name[i..][0] in name;
        }
      }
      CleanPathsStay(name);
    } else if Clean(spec.path) {
      CleanJoin(spec.path, name);
      CleanPathsStay(spec.path + "/" + name);
    }
  }

  /** What happens to the calls of one reconcile cycle. */
  datatype Calls = Calls(
    prepare: bool, tls: bool, listing: bool, create: CallOutcome,
    readTune: bool, writeTune: CallOutcome, relisting: bool)

  datatype Answer = Failed | Ok(accessor: string)

  /** What one cycle for a mount that is absent, or is there and tuned as in `tune`, comes to if all calls
      that it needs get through: this is what its success takes. */
  predicate Answered(calls: Calls, absent: bool, tuned: bool, outdated: bool) {
    && calls.prepare && calls.tls && calls.listing && calls.relisting
    && (absent ==> calls.create.Done?)
    && (!absent ==> calls.readTune && tuned && (outdated ==> calls.writeTune.Done?))
  }

  /** The engines of one kind mounted in Vault: accessor and tune configuration by key. */
  class Engines {
    const listPath: string
    var mounts: map<string, string>
    var tune: map<string, string>

    constructor (listPath: string)
      ensures this.listPath == listPath && mounts == map[] && tune == map[]
    {
      this.listPath := listPath;
      mounts, tune := map[], map[];
    }

    method RetrieveAccessor(key: string) returns (r: Lookup)
      ensures IsLookup(mounts, key, r)
    {
      var found, accessor := false, "";
      var remaining := mounts.Keys;
      while remaining != {}
        invariant remaining <= mounts.Keys && !found && accessor == ""
        invariant forall k <- mounts :: k !in remaining ==> Trim(k, '/') != key
        decreases remaining
      {
        var k :| k in remaining;
        if Trim(k, '/') == key {
          found, accessor := true, mounts[k];
          return Lookup(accessor, found);
        }
        remaining := remaining - {k};
      }
      r := Lookup("", found);
    }

    /** With a canonical listing, the accessor of the one mount stored under the key. */
    method GetAccessor(key: string) returns (r: Lookup)
      requires Canonical(mounts) && Trimmed(key) && key != ""
      ensures r.found <==> key + "/" in mounts
      ensures r.found ==> r.accessor == mounts[key + "/"]
    {
      r := RetrieveAccessor(key);
      LookupIsExact(mounts, key, r);
    }

    /** Writes the desired tune configuration unless the current one is equivalent to it. */
    method CreateOrUpdateTuneConfig(key: string, desired: string, equivalent: (string, string) -> bool, calls: Calls)
      returns (failed: bool)
      requires key in mounts
      modifies this`tune
      ensures var outdated := key in old(tune) && !equivalent(desired, old(tune)[key]);
        && tune == (if calls.readTune && outdated && calls.writeTune.Applied() then old(tune)[key := desired]
                    else old(tune))
        && (failed <==> !calls.readTune || key !in old(tune) || (outdated && !calls.writeTune.Done?))
      ensures !failed ==> key in tune && (tune[key] == desired || (tune == old(tune) && equivalent(desired, tune[key])))
    {
      if !calls.readTune || key !in tune {
        return true;
      }
      if !equivalent(desired, tune[key]) {
        if calls.writeTune.Applied() {
          tune := tune[key := desired];
        }
        return !calls.writeTune.Done?;
      }
      return false;
    }

    /** One cycle for the mount under `key`, were Vault to hand out `newAccessor` to a new mount.
        Existing mounts are never created again nor changed, and success reports the accessor of
        the mount under the key. */
    method ManageReconcileLogic(key: string, newAccessor: string, config: string,
                                equivalent: (string, string) -> bool, calls: Calls)
      returns (r: Answer, created: bool)
      requires Canonical(mounts) && Trimmed(key) && key != "" && Trim(key + "/", '/') == key
      modifies this
      ensures Canonical(mounts)
      ensures var k, reached := key + "/", calls.prepare && calls.tls && calls.listing;
        var absent, tuned := k !in old(mounts), k in old(tune);
        var outdated := tuned && !equivalent(config, old(tune)[k]);
        var creates, tunes := reached && absent, reached && !absent && calls.readTune && outdated;
        && (created <==> creates)
        && mounts == (if creates && calls.create.Applied() then old(mounts)[k := newAccessor] else old(mounts))
        && tune == (if (creates && calls.create.Applied()) || (tunes && calls.writeTune.Applied())
                    then old(tune)[k := config] else old(tune))
        && (r.Ok? <==> Answered(calls, absent, tuned, outdated))
      ensures r.Ok? ==> key + "/" in mounts && r.accessor == mounts[key + "/"]
      ensures r.Ok? ==> key + "/" in tune
      ensures r.Ok? ==> tune[key + "/"] == config || (tune == old(tune) && equivalent(config, tune[key + "/"]))
    {
      created := false;
      if !calls.prepare {
        return Failed, created;
      }
      if !calls.tls {
        return Failed, created;
      }
      if !calls.listing {
        return Failed, created;
      }
      var first := GetAccessor(key);
      if !first.found {
        created := true;
        Create(key, newAccessor, config, calls.create);
        if !calls.create.Done? {
          return Failed, created;
        }
      } else {
        var failed := CreateOrUpdateTuneConfig(key + "/", config, equivalent, calls);
        if failed {
          return Failed, created;
        }
      }
      if !calls.relisting {
        return Failed, created;
      }
      var second := GetAccessor(key);
      r := Ok(second.accessor);
    }

    /** The same cycle as the reconciler runs it, from the API path of a resource with mount point `x`. */
    method Reconcile(x: string, newAccessor: string, config: string,
                     equivalent: (string, string) -> bool, calls: Calls)
      returns (r: Answer, created: bool)
      requires listPath == SECRET_ENGINES || listPath == AUTH_ENGINES
      requires exists spec: MountSpec :: spec.Named() && (x == spec.SecretMountPoint() || x == spec.AuthMountPoint())
      requires Canonical(mounts)
      modifies this
      ensures Canonical(mounts)
      ensures var k, reached := CleansePath(x) + "/", calls.prepare && calls.tls && calls.listing;
        var absent, tuned := k !in old(mounts), k in old(tune);
        && (created <==> reached && absent)
        && mounts == (if created && calls.create.Applied() then old(mounts)[k := newAccessor] else old(mounts))
        && (r.Ok? <==> Answered(calls, absent, tuned, tuned && !equivalent(config, old(tune)[k])))
      ensures var k := CleansePath(x) + "/"; r.Ok? ==>
        && k in mounts && r.accessor == mounts[k]
        && k in tune && (tune[k] == config || (tune == old(tune) && equivalent(config, tune[k])))
    {
      ghost var spec: MountSpec :| spec.Named() && (x == spec.SecretMountPoint() || x == spec.AuthMountPoint());
      KeyOfNamedMount(listPath, spec);
      var key := LookupKey(listPath, ApiPath(listPath, x));
      TrimOfKey(key);
      r, created := ManageReconcileLogic(key, newAccessor, config, equivalent, calls);
    }

    /** Vault enables an engine. */
    method Create(key: string, newAccessor: string, config: string, outcome: CallOutcome)
      requires Canonical(mounts) && key != "" && Trim(key + "/", '/') == key
      modifies this
      ensures Canonical(mounts)
      ensures outcome.Refused? ==> mounts == old(mounts) && tune == old(tune)
      ensures !outcome.Refused? ==>
        mounts == old(mounts)[key + "/" := newAccessor] && tune == old(tune)[key + "/" := config]
    {
      if !outcome.Refused? {
        mounts := mounts[key + "/" := newAccessor];
        tune := tune[key + "/" := config];
      }
    }
  }
}
