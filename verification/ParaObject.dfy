/** The parameter manager as an object: the parameters in use, the three storage areas, and
    the routines of para.c that load, check, repair and save them, loops and masks
    included.  Storage works here; what a failing read means is in Paras. */
module ParaObjects {
  import opened Common
  import opened Paras

  class ParaManager {
    const crc: Crc
    const defaults: Para
    var sysPara: Para
    var tempPara: Para
    var user: Para
    var backup: Para
    var factory: Para

    ghost predicate Valid()
      reads this
    {
      defaults.Complete() && sysPara.Complete() && user.Complete() && backup.Complete() && factory.Complete()
    }

    ghost function View(): System
      reads this
    {
      System(sysPara, user, backup)
    }

    constructor (crc: Crc, defaults: Para, user: Para, backup: Para, factory: Para)
      requires defaults.Complete() && user.Complete() && backup.Complete() && factory.Complete()
      ensures Valid() && View() == System(defaults, user, backup)
      ensures this.crc == crc && this.defaults == defaults && this.factory == factory
    {
      this.crc, this.defaults := crc, defaults;
      this.user, this.backup, this.factory := user, backup, factory;
      sysPara, tempPara := defaults, defaults;
    }

    /** Checks the magic number, then each group. */
    static method ValidatePara(crc: Crc, para: Para) returns (status: set<nat>)
      requires para.Complete()
      ensures status == Validate(crc, para)
    {
      status := {};
      if para.magic != MAGIC { return; }
      var i := 0;
      while i < GROUPS
        invariant i <= GROUPS && status == OkGroups(crc, para, i)
      {
        if crc(para.groups[i]) == para.crc[i] {
          status := status + {i};
        }
        i := i + 1;
      }
    }

    /** Loads one area and takes over the groups that are still needed and intact there. */
    method TryRestore(stored: Para, needed: set<nat>) returns (left: set<nat>, status: set<nat>)
      requires Valid() && stored.Complete()
      modifies this`sysPara, this`tempPara
      ensures Valid() && tempPara == stored && status == Validate(crc, stored)
      ensures (sysPara, left) == Restore(crc, old(sysPara), needed, Some(stored))
    {
      left := needed;
      tempPara := stored;
      status := ValidatePara(crc, tempPara);
      if tempPara.magic != MAGIC { return; }
      OkGroupsAre(crc, stored, GROUPS);
      var i: nat := 0;
      while i < GROUPS
        invariant i <= GROUPS && Valid() && tempPara == stored
        invariant (sysPara, left) == Take(crc, old(sysPara), needed, stored, i)
      {
        if i in left && i in status {
          sysPara := sysPara.Put(i, tempPara.groups[i], tempPara.crc[i]);
          left := left - {i};
        }
        i := i + 1;
      }
      if sysPara.magic != MAGIC {
        sysPara := sysPara.(magic := MAGIC);
      }
    }

    method RecalculateAllCrc()
      requires Valid()
      modifies this`sysPara
      ensures Valid() && sysPara == Sealed(crc, old(sysPara))
    {
      sysPara := sysPara.(magic := MAGIC);
      var i := 0;
      while i < GROUPS
        invariant i <= GROUPS && Valid() && sysPara == Recalculate(crc, old(sysPara), i)
      {
        sysPara := sysPara.(crc := sysPara.crc[i := crc(sysPara.groups[i])]);
        i := i + 1;
      }
    }

    /** The user area is in flash, which is always written as a whole. */
    method SaveToUser()
      requires Valid()
      modifies this`sysPara, this`user
      ensures Valid() && sysPara == user == Sealed(crc, old(sysPara))
    {
      RecalculateAllCrc();
      user := sysPara;
    }

    /** The backup area is in EEPROM, which is written group by group if not all are
        asked for. */
    method SaveToBackup(groups: set<nat>)
      requires Valid()
      modifies this`sysPara, this`backup
      ensures Valid() && sysPara == Sealed(crc, old(sysPara)) && backup == SaveEeprom(old(backup), sysPara, groups)
    {
      RecalculateAllCrc();
      if AllGroups() <= groups {
        backup := sysPara;
        return;
      }
      var i: nat := 0;
      while i < GROUPS
        invariant i <= GROUPS && Valid() && sysPara == Sealed(crc, old(sysPara))
        invariant backup == Patch(old(backup), sysPara, groups, i)
      {
        if i in groups {
          backup := backup.(groups := backup.groups[i := sysPara.groups[i]]);
          backup := backup.(crc := backup.crc[i := sysPara.crc[i]]);
        }
        i := i + 1;
      }
    }

    /** The three passes of start-up. */
    method LoadAll() returns (userStatus: set<nat>, backupStatus: set<nat>, crcUser: seq<nat>, crcBackup: seq<nat>)
      requires Valid()
      modifies this`sysPara, this`tempPara
      ensures Valid() && sysPara == Load(crc, defaults, Some(user), Some(backup), Some(factory))
      ensures userStatus == Validate(crc, user) && backupStatus == Validate(crc, backup)
      ensures crcUser == user.crc && crcBackup == backup.crc
    {
      sysPara := defaults;
      var needed := AllGroups();
      needed, userStatus := TryRestore(user, needed);
      crcUser := tempPara.crc;
      needed, backupStatus := TryRestore(backup, needed);
      crcBackup := tempPara.crc;
      var factoryStatus;
      needed, factoryStatus := TryRestore(factory, needed);
    }

    /** Writes the areas again that are not intact. */
    method RepairInvalidStorage(userStatus: set<nat>, backupStatus: set<nat>)
      requires Valid() && userStatus != AllGroups() && backupStatus <= AllGroups()
      modifies this`sysPara, this`user, this`backup
      ensures Valid() && sysPara == user == Sealed(crc, old(sysPara))
      ensures backup == if backupStatus == AllGroups() then old(backup) else SaveEeprom(old(backup), user, AllGroups() - backupStatus)
    {
      SaveToUser();
      SealedIntact(crc, old(sysPara));
      IntactSealed(crc, sysPara);
      if backupStatus != AllGroups() {
        SaveToBackup(AllGroups() - backupStatus);
      }
    }

    method ParaInit()
      requires Valid()
      modifies this
      ensures Valid() && factory == old(factory)
      ensures View() == Init(crc, defaults, old(user), old(backup), Some(factory))
    {
      var userStatus, backupStatus, crcUser, crcBackup := LoadAll();
      OkGroupsAre(crc, backup, GROUPS);
      if userStatus == AllGroups() {
        if crcUser != crcBackup {
          SaveToBackup(AllGroups());
        }
      } else {
        RepairInvalidStorage(userStatus, backupStatus);
      }
      assert View() == Repair(crc, System(Load(crc, defaults, Some(old(user)), Some(old(backup)), Some(factory)), old(user), old(backup)));
      if sysPara.groups[DEV][0] > DEV_MAX_ADDR {
        sysPara := sysPara.WithAddress(defaults);
        SaveGroup(DEV);
      }
    }

    /** Saves the parameters after one group has been changed. */
    method SaveGroup(group: nat)
      requires Valid() && group < GROUPS
      modifies this`sysPara, this`user, this`backup
      ensures Valid() && sysPara == user == Sealed(crc, old(sysPara))
      ensures backup == SaveEeprom(old(backup), user, {group})
    {
      sysPara := sysPara.(crc := sysPara.crc[group := crc(sysPara.groups[group])], magic := MAGIC);
      SameSealed(crc, old(sysPara), sysPara);
      SaveToUser();
      SealedIntact(crc, old(sysPara));
      IntactSealed(crc, sysPara);
      SaveToBackup({group});
    }

    /** Sealing depends on the groups alone. */
    static lemma SameSealed(f: Crc, p: Para, q: Para)
      requires p.Complete() && q.Complete() && p.groups == q.groups
      ensures Sealed(f, p) == Sealed(f, q)
    {
      assert Sealed(f, p).crc == Sealed(f, q).crc;
    }
  }
}
