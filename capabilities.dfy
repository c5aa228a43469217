/** The feature flags derived from the QEMU version (vm.py, `run_in_vm`). */
module Capabilities {
  import opened Wrappers
  import opened Version

  /** multidevs was added in QEMU 4.2.0. */
  const RemapSince: Version := [4, 2]
  /** The 9pfs O_NOATIME fix landed in 5.1.0 and was backported to 5.0.1. */
  const NoatimeFixedIn: Version := [5, 0, 1]
  /** The suffix appended to the root `-virtfs` option when remapping is supported. */
  const MultidevsOption: string := ",multidevs=remap"

  /** `qemu_version >= (4, 2)`. */
  predicate SupportsRemap(v: Version) {
    !Less(v, RemapSince)
  }

  /** `qemu_version < (5, 0, 1)`: the LD_PRELOAD timestamp shim is needed. */
  predicate NeedsShim(v: Version) {
    Less(v, NoatimeFixedIn)
  }

  function Multidevs(v: Version): (s: string)
    ensures s == MultidevsOption || s == ""
  {
    if SupportsRemap(v) then MultidevsOption else ""
  }

  datatype Capabilities = Capabilities(version: Version, multidevs: string, needsShim: bool)

  /** The version probe: None is the "could not determine QEMU version" failure. */
  function Probe(output: string): (r: Option<Capabilities>)
    ensures r.None? <==> forall i: nat :: !MatchAt(output, i)
    ensures r.Some? ==> |r.value.version| > 0
    ensures r.Some? ==> (r.value.multidevs == MultidevsOption <==> SupportsRemap(r.value.version))
    ensures r.Some? ==> (r.value.multidevs == "" <==> !SupportsRemap(r.value.version))
    ensures r.Some? ==> (r.value.needsShim <==> NeedsShim(r.value.version))
    ensures r.Some? ==> ParseVersion(output) == Some(r.value.version)
  {
    ParseVersionIsLeftmostMatch(output);
    match ParseVersion(output)
    case None => None
    case Some(v) =>
      ParseVersionIsLeftmostMatch(output);
      Some(Capabilities(v, Multidevs(v), NeedsShim(v)))
  }

  /** The remap flag in closed form: the major version is above 4, or it is 4 with a second
      component of at least 2. */
  lemma RemapFlagClosedForm(v: Version)
    requires |v| > 0
    ensures SupportsRemap(v) <==> v[0] > 4 || (v[0] == 4 && |v| > 1 && v[1] >= 2)
  {
    var tail: Version := [2];
    assert RemapSince[1..] == tail && tail[1..] == [];
    assert Less(v, RemapSince) == (v[0] < 4 || (v[0] == 4 && Less(v[1..], tail)));
    if |v| > 1 {
      assert Less(v[1..], tail) == (v[1] < 2 || (v[1] == 2 && Less(v[1..][1..], [])));
    }
  }

  /** The shim flag in closed form: the major version is below 5, or it is 5 and each of the
      next two components, where present, is 0. */
  lemma ShimFlagClosedForm(v: Version)
    requires |v| > 0
    ensures NeedsShim(v) <==>
      v[0] < 5 || (v[0] == 5 && (|v| == 1 || (v[1] == 0 && (|v| == 2 || v[2] == 0))))
  {
    var t1: Version := [0, 1];
    var t2: Version := [1];
    assert NoatimeFixedIn[1..] == t1 && t1[1..] == t2 && t2[1..] == [];
    assert Less(v, NoatimeFixedIn) == (v[0] < 5 || (v[0] == 5 && Less(v[1..], t1)));
    if |v| > 1 {
      assert Less(v[1..], t1) == (v[1] < 0 || (v[1] == 0 && Less(v[1..][1..], t2)));
      if |v| > 2 {
        assert v[1..][1..][0] == v[2];
        assert Less(v[1..][1..], t2) == (v[2] < 1 || (v[2] == 1 && Less(v[1..][1..][1..], [])));
      }
    }
  }

  /** The boundary cases the comparison has to get right: a shorter equal prefix sorts lower,
      and 5.10 is newer than 5.9. */
  lemma BoundaryVersions()
    ensures SupportsRemap([4, 2]) && SupportsRemap([4, 2, 0]) && !SupportsRemap([4, 1, 9])
    ensures !SupportsRemap([4]) && SupportsRemap([5])
    ensures NeedsShim([5, 0]) && NeedsShim([5, 0, 0]) && NeedsShim([4, 2, 0])
    ensures !NeedsShim([5, 0, 1]) && !NeedsShim([5, 1]) && !NeedsShim([5, 0, 1, 0])
    ensures Less([5, 9], [5, 10]) && !Less([5, 10], [5, 9])
    ensures SupportsRemap([3, 9, 9]) == false && NeedsShim([3, 9, 9])
    ensures SupportsRemap([5, 1, 3]) && !NeedsShim([5, 1, 3])
  {
    RemapFlagClosedForm([4, 2]);
    RemapFlagClosedForm([4, 2, 0]);
    RemapFlagClosedForm([4, 1, 9]);
    RemapFlagClosedForm([4]);
    RemapFlagClosedForm([5]);
    RemapFlagClosedForm([3, 9, 9]);
    RemapFlagClosedForm([5, 1, 3]);
    ShimFlagClosedForm([5, 0]);
    ShimFlagClosedForm([5, 0, 0]);
    ShimFlagClosedForm([4, 2, 0]);
    ShimFlagClosedForm([5, 0, 1]);
    ShimFlagClosedForm([5, 1]);
    ShimFlagClosedForm([5, 0, 1, 0]);
    ShimFlagClosedForm([3, 9, 9]);
    ShimFlagClosedForm([5, 1, 3]);
  }

  /** Upgrading QEMU never loses remap support and never brings the shim back. */
  lemma FlagsMonotone(v: Version, w: Version)
    requires Less(v, w)
    ensures SupportsRemap(v) ==> SupportsRemap(w)
    ensures NeedsShim(w) ==> NeedsShim(v)
  {
    if SupportsRemap(v) && !SupportsRemap(w) {
      LessTransitive(v, w, RemapSince);
      if v == RemapSince {
        LessIrreflexive(v);
      } else {
        LessTotal(v, RemapSince);
      }
    }
    if NeedsShim(w) {
      LessTransitive(v, w, NoatimeFixedIn);
    }
  }
}
