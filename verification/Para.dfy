/** Parameter management.  Parameters come in groups, each with its own CRC, and are kept in
    three places.  At start-up each group is taken from the first place that has it intact,
    or from the defaults, and broken places are written again.  Proved: where each group
    comes from, independently of the others; and that after a start-up with working
    storage everything in the user area is intact, so that the next start-up changes
    nothing. */
module Paras {
  import opened Common

  const MAGIC: nat := 0x0008_0296
  const GROUPS: nat := 14
  /** The device group, and the place of the device address in it. */
  const DEV: nat := 0
  const DEV_MAX_ADDR: Byte := 32

  type Group = seq<Byte>

  /** What a CRC field holds for a group; it may be any function. */
  type Crc = Group -> nat

  datatype Para = Para(magic: nat, groups: seq<Group>, crc: seq<nat>)
  {
    /** Every group is there, and the device group has its address. */
    predicate Complete() { |groups| == GROUPS && |crc| == GROUPS && groups[DEV] != [] }

    predicate GroupOk(f: Crc, i: nat)
      requires Complete() && i < GROUPS
    {
      f(groups[i]) == crc[i]
    }

    function Put(i: nat, g: Group, c: nat): Para
      requires Complete() && i < GROUPS
    {
      this.(groups := groups[i := g], crc := crc[i := c])
    }

    predicate AddressOk()
      requires Complete()
    {
      groups[DEV][0] <= DEV_MAX_ADDR
    }

    /** The device address of another parameter set. */
    function WithAddress(p: Para): (r: Para)
      requires Complete() && p.Complete()
      ensures r.Complete()
    {
      this.(groups := groups[DEV := groups[DEV][0 := p.groups[DEV][0]]])
    }
  }

  /** The result of checking one place: none if its magic number is wrong, or else the
      groups whose CRCs match. */
  function OkGroups(f: Crc, p: Para, n: nat): set<nat>
    requires p.Complete() && n <= GROUPS
  {
    if n == 0 then {} else OkGroups(f, p, n - 1) + if p.GroupOk(f, n - 1) then {n - 1} else {}
  }

  function Validate(f: Crc, p: Para): set<nat>
    requires p.Complete()
  {
    if p.magic == MAGIC then OkGroups(f, p, GROUPS) else {}
  }

  lemma {:induction false} OkGroupsAre(f: Crc, p: Para, n: nat)
    requires p.Complete() && n <= GROUPS
    ensures forall i: nat :: i in OkGroups(f, p, n) <==> i < n && p.GroupOk(f, i)
  {
    if n > 0 { OkGroupsAre(f, p, n - 1); }
  }

  /** A group that a place can supply. */
  predicate Supplies(f: Crc, p: Para, i: nat)
    requires p.Complete() && i < GROUPS
  {
    p.magic == MAGIC && p.GroupOk(f, i)
  }

  /** Every group. */
  function AllGroups(): (s: set<nat>)
    ensures forall i: nat :: i in s <==> i < GROUPS
  {
    {0, 1, 2, 3, 4, 5, 6, 7, 8, 9, 10, 11, 12, 13}
  }

  /** The whole place is intact. */
  predicate Intact(f: Crc, p: Para) { p.Complete() && Validate(f, p) == AllGroups() }

  lemma IntactIs(f: Crc, p: Para)
    requires p.Complete()
    ensures Intact(f, p) <==> p.magic == MAGIC && forall i: nat | i < GROUPS :: p.GroupOk(f, i)
  {
    OkGroupsAre(f, p, GROUPS);
    if Intact(f, p) {
      assert DEV in AllGroups();
      forall i: nat | i < GROUPS ensures p.GroupOk(f, i) { assert i in AllGroups(); }
    }
  }

  // ---------------------------------------------------------------- restoring

  /** One place as it is read: nothing if the read fails. */
  type Place = Option<Para>

  predicate PlaceComplete(l: Place) { l.Some? ==> l.value.Complete() }

  /** Takes over the first `n` groups of a place that are still needed and intact there. */
  function Take(f: Crc, sys: Para, needed: set<nat>, from: Para, n: nat): (r: (Para, set<nat>))
    requires sys.Complete() && from.Complete() && n <= GROUPS
    ensures |r.0.groups| == GROUPS && |r.0.crc| == GROUPS && r.0.groups[DEV] != [] && r.0.magic == sys.magic
  {
    if n == 0 then (sys, needed) else
      var (s, left) := Take(f, sys, needed, from, n - 1);
      if n - 1 in left && from.GroupOk(f, n - 1) then (s.Put(n - 1, from.groups[n - 1], from.crc[n - 1]), left - {n - 1})
      else (s, left)
  }

  /** Tries one place. */
  function Restore(f: Crc, sys: Para, needed: set<nat>, l: Place): (r: (Para, set<nat>))
    requires sys.Complete() && PlaceComplete(l)
    ensures r.0.Complete()
  {
    if l == None || l.value.magic != MAGIC then (sys, needed) else
      var (s, left) := Take(f, sys, needed, l.value, GROUPS);
      (s.(magic := MAGIC), left)
  }

  /** User area, then backup, then factory. */
  function Load(f: Crc, defaults: Para, user: Place, backup: Place, factory: Place): (r: Para)
    requires defaults.Complete() && PlaceComplete(user) && PlaceComplete(backup) && PlaceComplete(factory)
    ensures r.Complete()
  {
    var (s1, n1) := Restore(f, defaults, AllGroups(), user);
    var (s2, n2) := Restore(f, s1, n1, backup);
    Restore(f, s2, n2, factory).0
  }

  predicate Offers(f: Crc, l: Place, i: nat)
    requires PlaceComplete(l) && i < GROUPS
  {
    l.Some? && Supplies(f, l.value, i)
  }

  lemma {:induction false} TakeIs(f: Crc, sys: Para, needed: set<nat>, from: Para, n: nat, i: nat)
    requires sys.Complete() && from.Complete() && n <= GROUPS && i < GROUPS
    ensures var (s, left) := Take(f, sys, needed, from, n);
            var taken := i < n && i in needed && from.GroupOk(f, i);
            && s.groups[i] == (if taken then from.groups[i] else sys.groups[i])
            && s.crc[i] == (if taken then from.crc[i] else sys.crc[i])
            && (i in left <==> i in needed && !taken)
  {
    if n > 0 { TakeIs(f, sys, needed, from, n - 1, i); if i != n - 1 { TakeIs(f, sys, needed, from, n - 1, n - 1); } }
  }

  lemma RestoreIs(f: Crc, sys: Para, needed: set<nat>, l: Place, i: nat)
    requires sys.Complete() && PlaceComplete(l) && i < GROUPS
    ensures var (s, left) := Restore(f, sys, needed, l);
            var taken := i in needed && Offers(f, l, i);
            && s.groups[i] == (if taken then l.value.groups[i] else sys.groups[i])
            && s.crc[i] == (if taken then l.value.crc[i] else sys.crc[i])
            && (i in left <==> i in needed && !taken)
  {
    if l.Some? { TakeIs(f, sys, needed, l.value, GROUPS, i); }
  }

  /** Where one group should come from. */
  function Source(f: Crc, defaults: Para, user: Place, backup: Place, factory: Place, i: nat): Para
    requires defaults.Complete() && PlaceComplete(user) && PlaceComplete(backup) && PlaceComplete(factory) && i < GROUPS
  {
    if Offers(f, user, i) then user.value
    else if Offers(f, backup, i) then backup.value
    else if Offers(f, factory, i) then factory.value
    else defaults
  }

  /** After the three passes each group, with its CRC, is that of the first place whose
      magic number and CRC are right for it, or else the default, whatever becomes of the
      other groups. */
  lemma LoadIs(f: Crc, defaults: Para, user: Place, backup: Place, factory: Place, i: nat)
    requires defaults.Complete() && PlaceComplete(user) && PlaceComplete(backup) && PlaceComplete(factory) && i < GROUPS
    ensures var r, from := Load(f, defaults, user, backup, factory), Source(f, defaults, user, backup, factory, i);
            from.Complete() && r.groups[i] == from.groups[i] && r.crc[i] == from.crc[i]
  {
    var (s1, n1) := Restore(f, defaults, AllGroups(), user);
    var (s2, n2) := Restore(f, s1, n1, backup);
    RestoreIs(f, defaults, AllGroups(), user, i);
    RestoreIs(f, s1, n1, backup, i);
    RestoreIs(f, s2, n2, factory, i);
  }

  // ---------------------------------------------------------------- saving

  function Recalculate(f: Crc, p: Para, n: nat): (r: Para)
    requires p.Complete() && n <= GROUPS
    ensures r.Complete() && r.groups == p.groups && r.magic == MAGIC
    ensures forall i: nat | i < GROUPS :: r.crc[i] == if i < n then f(p.groups[i]) else p.crc[i]
  {
    if n == 0 then p.(magic := MAGIC) else
      var r := Recalculate(f, p, n - 1);
      r.(crc := r.crc[n - 1 := f(r.groups[n - 1])])
  }

  /** The parameters with their magic number and every CRC brought up to date. */
  function Sealed(f: Crc, p: Para): (r: Para)
    requires p.Complete()
    ensures r.Complete() && r.groups == p.groups
  {
    Recalculate(f, p, GROUPS)
  }

  lemma SealedIntact(f: Crc, p: Para)
    requires p.Complete()
    ensures Intact(f, Sealed(f, p))
  {
    IntactIs(f, Sealed(f, p));
  }

  /** An intact parameter set is its own sealed form. */
  lemma IntactSealed(f: Crc, p: Para)
    requires Intact(f, p)
    ensures Sealed(f, p) == p
  {
    IntactIs(f, p);
    var c := Sealed(f, p).crc;
    forall i: nat | i < GROUPS ensures c[i] == p.crc[i] { assert p.GroupOk(f, i); }
    assert c == p.crc;
  }

  /** Writing some groups, with their CRCs and nothing else, over what is there. */
  function Patch(there: Para, p: Para, which: set<nat>, n: nat): (r: Para)
    requires there.Complete() && p.Complete() && n <= GROUPS
    ensures r.Complete() && r.magic == there.magic
    ensures forall i: nat | i < GROUPS ::
              (r.groups[i], r.crc[i]) == if i < n && i in which then (p.groups[i], p.crc[i]) else (there.groups[i], there.crc[i])
  {
    if n == 0 then there else
      var r := Patch(there, p, which, n - 1);
      if n - 1 in which then r.Put(n - 1, p.groups[n - 1], p.crc[n - 1]) else r
  }

  /** The EEPROM: a save of all groups writes everything, a save of some only those. */
  function SaveEeprom(there: Para, p: Para, which: set<nat>): (r: Para)
    requires there.Complete() && p.Complete()
    ensures r.Complete()
  {
    if AllGroups() <= which then p else Patch(there, p, which, GROUPS)
  }

  // ---------------------------------------------------------------- start-up

  /** What is kept: the two areas that start-up may write, with working storage, and the
      parameters in use. */
  datatype System = System(sys: Para, user: Para, backup: Para)
  {
    predicate Complete() { sys.Complete() && user.Complete() && backup.Complete() }
  }

  /** The end of start-up, once the parameters are loaded: the areas are repaired, or the
      backup renewed if its CRCs differ from the user's. */
  function Repair(f: Crc, s: System): (r: System)
    requires s.Complete()
    ensures r.Complete()
  {
    var sealed := Sealed(f, s.sys);
    if Validate(f, s.user) == AllGroups() then
      if s.user.crc != s.backup.crc then s.(sys := sealed, backup := sealed) else s
    else
      var bad := AllGroups() - Validate(f, s.backup);
      System(sealed, sealed, if bad == {} then s.backup else SaveEeprom(s.backup, sealed, bad))
  }

  /** A device address out of range is replaced by the default one and saved. */
  function CheckAddress(f: Crc, defaults: Para, s: System): (r: System)
    requires s.Complete() && defaults.Complete()
    ensures r.Complete()
  {
    if s.sys.AddressOk() then s else
      var sealed := Sealed(f, s.sys.WithAddress(defaults));
      System(sealed, sealed, SaveEeprom(s.backup, sealed, {DEV}))
  }

  function Init(f: Crc, defaults: Para, user: Para, backup: Para, factory: Place): (r: System)
    requires defaults.Complete() && user.Complete() && backup.Complete() && PlaceComplete(factory)
    ensures r.Complete()
  {
    var sys := Load(f, defaults, Some(user), Some(backup), factory);
    CheckAddress(f, defaults, Repair(f, System(sys, user, backup)))
  }

  lemma LoadIntact(f: Crc, defaults: Para, user: Para, backup: Place, factory: Place)
    requires Intact(f, user) && defaults.Complete() && PlaceComplete(backup) && PlaceComplete(factory)
    ensures Load(f, defaults, Some(user), backup, factory) == user
  {
    IntactIs(f, user);
    var r := Load(f, defaults, Some(user), backup, factory);
    forall i: nat | i < GROUPS ensures r.groups[i] == user.groups[i] && r.crc[i] == user.crc[i] {
      LoadIs(f, defaults, Some(user), backup, factory, i);
    }
    assert r.groups == user.groups && r.crc == user.crc;
  }

  /** What is in use after start-up is what the three passes have found, group by group,
      but for a device address that is out of range, which becomes the default one. */
  lemma InitIs(f: Crc, defaults: Para, user: Para, backup: Para, factory: Place, i: nat)
    requires defaults.Complete() && user.Complete() && backup.Complete() && PlaceComplete(factory) && i < GROUPS
    ensures var r, from := Init(f, defaults, user, backup, factory), Source(f, defaults, Some(user), Some(backup), factory, i);
            && from.Complete()
            && r.sys.groups[i] == if i == DEV && !from.AddressOk() then from.groups[DEV][0 := defaults.groups[DEV][0]] else from.groups[i]
  {
    LoadIs(f, defaults, Some(user), Some(backup), factory, i);
  }

  /** What is written over the backup: groups in `which` are saved, with an intact result. */
  lemma SavedIntact(f: Crc, there: Para, p: Para, which: set<nat>)
    requires there.Complete() && Intact(f, p) && (there.magic == MAGIC || AllGroups() <= which)
    requires forall i: nat | i < GROUPS && i !in which :: there.GroupOk(f, i)
    ensures Intact(f, SaveEeprom(there, p, which))
    ensures forall i: nat | i < GROUPS ::
              SaveEeprom(there, p, which).groups[i] == if i in which then p.groups[i] else there.groups[i]
  {
    IntactIs(f, p);
    IntactIs(f, SaveEeprom(there, p, which));
    var r := SaveEeprom(there, p, which);
    forall i: nat | i < GROUPS ensures r.GroupOk(f, i) { assert p.GroupOk(f, i); }
  }

  lemma RepairedBackup(f: Crc, s: System, r: System, i: nat)
    requires s.Complete() && r == Repair(f, s) && !Intact(f, s.user) && i < GROUPS
    ensures Intact(f, r.backup) && Intact(f, r.sys) && r.sys.groups == s.sys.groups
    ensures r.backup.groups[i] == if Supplies(f, s.backup, i) then s.backup.groups[i] else r.sys.groups[i]
  {
    var sealed, bad := Sealed(f, s.sys), AllGroups() - Validate(f, s.backup);
    SealedIntact(f, s.sys);
    OkGroupsAre(f, s.backup, GROUPS);
    if bad == {} {
      forall j: nat | j < GROUPS ensures j in Validate(f, s.backup) { assert j !in bad; }
      forall j | j in Validate(f, s.backup) ensures j in AllGroups() { }
      assert i in Validate(f, s.backup);
    } else {
      SavedIntact(f, s.backup, sealed, bad);
    }
  }

  /** When the user area was damaged the backup is intact afterwards: each group that was
      so before is left alone, and each that was not is that in use.  A device address
      that had to be replaced is replaced there as well. */
  lemma InitBackupIs(f: Crc, defaults: Para, user: Para, backup: Para, factory: Place, i: nat)
    requires defaults.Complete() && user.Complete() && backup.Complete() && PlaceComplete(factory) && i < GROUPS
    requires !Intact(f, user)
    ensures var r, from := Init(f, defaults, user, backup, factory), Source(f, defaults, Some(user), Some(backup), factory, DEV);
            && from.Complete() && Intact(f, r.backup)
            && r.backup.groups[i] == if Supplies(f, backup, i) && (i != DEV || from.AddressOk()) then backup.groups[i]
                                     else r.sys.groups[i]
  {
    var sys := Load(f, defaults, Some(user), Some(backup), factory);
    var s := Repair(f, System(sys, user, backup));
    LoadIs(f, defaults, Some(user), Some(backup), factory, DEV);
    RepairedBackup(f, System(sys, user, backup), s, i);
    if !s.sys.AddressOk() {
      SealedIntact(f, s.sys.WithAddress(defaults));
      IntactIs(f, s.backup);
      SavedIntact(f, s.backup, Sealed(f, s.sys.WithAddress(defaults)), {DEV});
    }
  }

  /** After start-up with working storage the user area is intact and is what is in use,
      with a device address in range. */
  lemma InitIntact(f: Crc, defaults: Para, user: Para, backup: Para, factory: Place)
    requires defaults.Complete() && defaults.AddressOk() && user.Complete() && backup.Complete() && PlaceComplete(factory)
    ensures var r := Init(f, defaults, user, backup, factory);
            Intact(f, r.user) && r.sys == r.user && r.sys.AddressOk()
  {
    var sys := Load(f, defaults, Some(user), Some(backup), factory);
    SealedIntact(f, sys);
    SealedIntact(f, sys.WithAddress(defaults));
    SealedIntact(f, Sealed(f, sys).WithAddress(defaults));
    if Intact(f, user) {
      LoadIntact(f, defaults, user, Some(backup), factory);
      IntactSealed(f, user);
    }
  }

  /** A second start-up changes neither the parameters nor the user area, and leaves the
      backup with the same CRCs as the user area. */
  lemma InitFixedPoint(f: Crc, defaults: Para, user: Para, backup: Para, factory: Place)
    requires defaults.Complete() && defaults.AddressOk() && user.Complete() && backup.Complete() && PlaceComplete(factory)
    ensures var r := Init(f, defaults, user, backup, factory);
            var again := Init(f, defaults, r.user, r.backup, factory);
            && again.sys == r.sys && again.user == r.user && again.backup.crc == again.user.crc
            && Init(f, defaults, again.user, again.backup, factory) == again
  {
    var r := Init(f, defaults, user, backup, factory);
    InitIntact(f, defaults, user, backup, factory);
    InitSettled(f, defaults, r, factory);
    InitSettled(f, defaults, Init(f, defaults, r.user, r.backup, factory), factory);
  }

  /** Start-up from an intact user area only brings the backup into line. */
  lemma InitSettled(f: Crc, defaults: Para, s: System, factory: Place)
    requires s.Complete() && Intact(f, s.user) && s.sys == s.user && s.user.AddressOk()
    requires defaults.Complete() && PlaceComplete(factory)
    ensures Init(f, defaults, s.user, s.backup, factory) ==
              System(s.user, s.user, if s.user.crc == s.backup.crc then s.backup else s.user)
  {
    LoadIntact(f, defaults, s.user, Some(s.backup), factory);
    IntactSealed(f, s.user);
  }

  /** When the user area is intact the backup is judged by its CRC fields alone: one that is
      damaged elsewhere stays so. */
  lemma DamagedBackupStays(f: Crc, defaults: Para, s: System, factory: Place)
    requires s.Complete() && Intact(f, s.user) && s.sys == s.user && s.user.AddressOk()
    requires defaults.Complete() && PlaceComplete(factory)
    ensures Intact(f, Init(f, defaults, s.user, s.backup, factory).backup) <==>
              s.user.crc != s.backup.crc || Intact(f, s.backup)
  {
    InitSettled(f, defaults, s, factory);
  }
}
