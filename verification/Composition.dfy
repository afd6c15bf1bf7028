/** Storing a global configuration: the difference between the old and the new members, and
    the assignments that carry it out one after another or as tasks of a pool. */
module Composition {
  import opened Json
  import opened Overlay
  import opened DatabaseRecord
  import opened RecordHistory
  import opened DocumentStore

  datatype VersionInfo = VersionInfo(configuration: string, version: string, entity: string) {
    function MembershipKey(): (string, string) {
      (configuration, entity)
    }

    predicate Valid() {
      configuration != "" && version != "" && entity != ""
    }
  }

  datatype Diff = Diff(toUnassign: seq<VersionInfo>, toAssign: seq<VersionInfo>, same: set<(string, string)>)

  /** The version each key of the new list ends with. */
  function VersionMap(members: seq<VersionInfo>): map<(string, string), string> {
    if members == [] then map[]
    else
      var last := members[|members| - 1];
      VersionMap(members[..|members| - 1])[last.MembershipKey() := last.version]
  }

  predicate Kept(m: VersionInfo, versions: map<(string, string), string>) {
    m.MembershipKey() in versions && versions[m.MembershipKey()] == m.version
  }

  function ToDrop(members: seq<VersionInfo>, versions: map<(string, string), string>): seq<VersionInfo> {
    if members == [] then []
    else
      var last := members[|members| - 1];
      ToDrop(members[..|members| - 1], versions) + if Kept(last, versions) then [] else [last]
  }

  function SameKeys(members: seq<VersionInfo>, versions: map<(string, string), string>): set<(string, string)> {
    set m | m in members && Kept(m, versions) :: m.MembershipKey()
  }

  function ToAdd(members: seq<VersionInfo>, same: set<(string, string)>): seq<VersionInfo> {
    if members == [] then []
    else
      var last := members[|members| - 1];
      ToAdd(members[..|members| - 1], same) + if last.MembershipKey() in same then [] else [last]
  }

  function DiffOf(oldMembers: seq<VersionInfo>, newMembers: seq<VersionInfo>): Diff {
    var versions := VersionMap(newMembers);
    var same := SameKeys(oldMembers, versions);
    Diff(ToDrop(oldMembers, versions), ToAdd(newMembers, same), same)
  }

  method ComputeCompositionDiff(oldMembers: seq<VersionInfo>, newMembers: seq<VersionInfo>) returns (diff: Diff)
    ensures diff == DiffOf(oldMembers, newMembers)
  {
    hide ToDrop, ToAdd, SameKeys, VersionMap;
    var versions := map[];
    NothingCompared();
    for i := 0 to |newMembers|
      invariant versions == VersionMap(newMembers[..i])
    {
      NextVersion(newMembers, i);
      versions := versions[newMembers[i].MembershipKey() := newMembers[i].version];
    }
    assert newMembers[..|newMembers|] == newMembers;
    var toUnassign, toAssign, same := [], [], {};
    for i := 0 to |oldMembers|
      invariant toUnassign == ToDrop(oldMembers[..i], versions)
      invariant same == SameKeys(oldMembers[..i], versions)
    {
      NextOld(oldMembers, i, versions);
      var key := oldMembers[i].MembershipKey();
      if key !in versions {
        toUnassign := toUnassign + [oldMembers[i]];
      } else if versions[key] != oldMembers[i].version {
        toUnassign := toUnassign + [oldMembers[i]];
      } else {
        same := same + {key};
      }
    }
    assert oldMembers[..|oldMembers|] == oldMembers;
    for i := 0 to |newMembers|
      invariant toAssign == ToAdd(newMembers[..i], same)
    {
      NextNew(newMembers, i, same);
      if newMembers[i].MembershipKey() !in same {
        toAssign := toAssign + [newMembers[i]];
      }
    }
    diff := Diff(toUnassign, toAssign, same);
  }

  lemma NothingCompared()
    ensures VersionMap([]) == map[]
    ensures forall versions :: ToDrop([], versions) == [] && SameKeys([], versions) == {}
    ensures forall same :: ToAdd([], same) == []
  {
  }

  lemma NextVersion(members: seq<VersionInfo>, i: nat)
    requires i < |members|
    ensures VersionMap(members[..i + 1]) == VersionMap(members[..i])[members[i].MembershipKey() := members[i].version]
  {
    assert members[..i + 1][..i] == members[..i];
  }

  lemma NextOld(members: seq<VersionInfo>, i: nat, versions: map<(string, string), string>)
    requires i < |members|
    ensures var m := members[i];
      && ToDrop(members[..i + 1], versions) == ToDrop(members[..i], versions) + (if Kept(m, versions) then [] else [m])
      && SameKeys(members[..i + 1], versions) == SameKeys(members[..i], versions) + (if Kept(m, versions) then {m.MembershipKey()} else {})
  {
    assert members[..i + 1][..i] == members[..i];
    assert members[..i + 1] == members[..i] + [members[i]];
  }

  lemma NextNew(members: seq<VersionInfo>, i: nat, same: set<(string, string)>)
    requires i < |members|
    ensures ToAdd(members[..i + 1], same)
         == ToAdd(members[..i], same) + if members[i].MembershipKey() in same then [] else [members[i]]
  {
    assert members[..i + 1][..i] == members[..i];
  }

  function Members(s: seq<VersionInfo>): set<VersionInfo> {
    set m | m in s
  }

  predicate DistinctMemberKeys(s: seq<VersionInfo>) {
    forall i, j :: 0 <= i < j < |s| ==> s[i].MembershipKey() != s[j].MembershipKey()
  }

  lemma {:induction false} ToDropMembers(members: seq<VersionInfo>, versions: map<(string, string), string>)
    ensures forall m :: m in ToDrop(members, versions) <==> m in members && !Kept(m, versions)
  {
    if members != [] {
      var n := |members| - 1;
      ToDropMembers(members[..n], versions);
      assert members == members[..n] + [members[n]];
    }
  }

  lemma {:induction false} ToAddMembers(members: seq<VersionInfo>, same: set<(string, string)>)
    ensures forall m :: m in ToAdd(members, same) <==> m in members && m.MembershipKey() !in same
  {
    if members != [] {
      var n := |members| - 1;
      ToAddMembers(members[..n], same);
      assert members == members[..n] + [members[n]];
    }
  }

  lemma {:induction false} VersionMapMembers(members: seq<VersionInfo>)
    ensures forall m :: m in members ==> m.MembershipKey() in VersionMap(members)
    ensures forall m :: Kept(m, VersionMap(members)) ==> m in members
    ensures DistinctMemberKeys(members) ==> forall m :: m in members ==> Kept(m, VersionMap(members))
  {
    if members != [] {
      var n := |members| - 1;
      VersionMapMembers(members[..n]);
      assert members == members[..n] + [members[n]];
      forall m | Kept(m, VersionMap(members))
        ensures m in members
      {
        if m.MembershipKey() == members[n].MembershipKey() {
          assert m == members[n];
        } else {
          assert Kept(m, VersionMap(members[..n]));
        }
      }
      if DistinctMemberKeys(members) {
        forall m | m in members
          ensures Kept(m, VersionMap(members))
        {
          if m in members[..n] {
            var i :| 0 <= i < n && members[..n][i] == m;
            assert members[i].MembershipKey() != members[n].MembershipKey();
          }
        }
      }
    }
  }

  /** Taking away what is to be unassigned and adding what is to be assigned gives the new
      members, if and only if the new list does not name an unchanged key with two
      versions. */
  lemma DiffExact(oldMembers: seq<VersionInfo>, newMembers: seq<VersionInfo>)
    ensures var d := DiffOf(oldMembers, newMembers);
      (Members(oldMembers) - Members(d.toUnassign)) + Members(d.toAssign) == Members(newMembers) <==>
        forall m :: m in newMembers && m.MembershipKey() in d.same ==> Kept(m, VersionMap(newMembers))
  {
    var d := DiffOf(oldMembers, newMembers);
    var versions := VersionMap(newMembers);
    ToDropMembers(oldMembers, versions);
    ToAddMembers(newMembers, d.same);
    VersionMapMembers(newMembers);
    var result := (Members(oldMembers) - Members(d.toUnassign)) + Members(d.toAssign);
    assert forall m :: m in result <==> (m in oldMembers && Kept(m, versions)) || (m in newMembers && m.MembershipKey() !in d.same);
    forall m | m in newMembers && m.MembershipKey() in d.same
      ensures m in result <==> Kept(m, versions)
    {
      var o :| o in oldMembers && Kept(o, versions) && o.MembershipKey() == m.MembershipKey();
      if Kept(m, versions) {
        assert m == o;
      }
    }
    if result == Members(newMembers) {
      forall m | m in newMembers && m.MembershipKey() in d.same
        ensures Kept(m, versions)
      {
        assert m in Members(newMembers);
      }
    }
  }

  /** With distinct keys in the new list the difference is exact, nothing is both unassigned
      and assigned, and a list does not differ from itself. */
  lemma DiffOfDistinct(oldMembers: seq<VersionInfo>, newMembers: seq<VersionInfo>)
    requires DistinctMemberKeys(newMembers)
    ensures var d := DiffOf(oldMembers, newMembers);
      && (Members(oldMembers) - Members(d.toUnassign)) + Members(d.toAssign) == Members(newMembers)
      && Members(d.toUnassign) !! Members(d.toAssign)
    ensures DiffOf(newMembers, newMembers).toUnassign == [] && DiffOf(newMembers, newMembers).toAssign == []
  {
    DiffExact(oldMembers, newMembers);
    VersionMapMembers(newMembers);
    var versions := VersionMap(newMembers);
    ToDropMembers(oldMembers, versions);
    ToAddMembers(newMembers, SameKeys(oldMembers, versions));
    ToDropMembers(newMembers, versions);
    ToAddMembers(newMembers, SameKeys(newMembers, versions));
    var self := DiffOf(newMembers, newMembers);
    SomeMember(self.toUnassign);
    SomeMember(self.toAssign);
  }

  lemma SomeMember(s: seq<VersionInfo>)
    ensures s == [] || exists m :: m in s
  {
    if s != [] {
      assert s[0] in s;
    }
  }

  /** Two versions under one new key: the version that the old list already has hides the
      other, which is not assigned. */
  lemma RepeatedKeyMissed()
    ensures var v1, v2 := VersionInfo("c", "1", "e"), VersionInfo("c", "2", "e");
      DiffOf([v1], [v2, v1]) == Diff([], [], {("c", "e")})
  {
    var v1, v2 := VersionInfo("c", "1", "e"), VersionInfo("c", "2", "e");
    var members := [v2, v1];
    assert members[..1] == [v2] && members[..1][..0] == [] && [v1][..0] == [];
    var versions := VersionMap(members);
    assert VersionMap(members[..1]) == map[("c", "e") := "2"];
    assert versions == map[("c", "e") := "2"][v1.MembershipKey() := v1.version];
    assert versions == map[("c", "e") := "1"];
    assert Kept(v1, versions);
    assert SameKeys([v1], versions) == {("c", "e")} by {
      assert v1 in [v1];
    }
    assert ToDrop([v1], versions) == [];
    assert ToAdd(members[..1], {("c", "e")}) == [];
  }
}
