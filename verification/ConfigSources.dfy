/** Which level an effective value is attributed to, against the level it comes from. */
module ConfigSources {
  import opened Wrappers
  import opened ConfigSchema
  import opened ConfigInheritance

  datatype Source = Task | JobSource | GlobalSource | Default

  function SourceOf(level: Level): Source {
    match Height(level)
    case 0 => GlobalSource
    case 1 => JobSource
    case _ => Task
  }

  /** The first level of the chain where the key stood in the file. */
  function Walk(s: Schema, level: Level, key: Key, raws: RawByLevel): Source
    decreases Height(level)
  {
    if key in raws(level).explicit then SourceOf(level)
    else
      var parent := s.parentOf(level, key);
      if parent.Some? && Height(parent.value) < Height(level) then Walk(s, parent.value, key, raws) else Default
  }

  function PasswordKeys(): set<Key> {
    {Password, PasswordEnv, PasswordFile}
  }

  /** For the credentials: the first level with any of the three password fields in the file. */
  function CredentialsSource(raws: RawByLevel): Source {
    if raws(BackupTask).explicit * PasswordKeys() != {} then Task
    else if raws(JobBackup).explicit * PasswordKeys() != {} then JobSource
    else if raws(GlobalBackup).explicit * PasswordKeys() != {} then GlobalSource
    else Default
  }

  // ----- where the value comes from -----

  /** A key is set explicitly where it stood in the file and was not normalised to None. */
  predicate SetsExplicitly(s: Schema, raw: Raw, key: Key) {
    if s.inheritanceOf(key) == PasswordChoice then exists k :: k in PasswordKeys() && k in raw.explicit && k in raw.values
    else key in raw.explicit && key in raw.values
  }

  /** The nearest level that sets the key explicitly. */
  function Origin(s: Schema, level: Level, key: Key, raws: RawByLevel): Source
    decreases Height(level)
  {
    if SetsExplicitly(s, raws(level), key) then SourceOf(level)
    else
      var parent := s.parentOf(level, key);
      if parent.Some? && Height(parent.value) < Height(level) then Origin(s, parent.value, key, raws) else Default
  }

  /** The value at the origin, or the final default. */
  function OriginValue(s: Schema, level: Level, key: Key, raws: RawByLevel): Option<Value>
    decreases Height(level)
  {
    if SetsExplicitly(s, raws(level), key) then Get(raws(level), key)
    else
      var parent := s.parentOf(level, key);
      if parent.Some? && Height(parent.value) < Height(level) then OriginValue(s, parent.value, key, raws) else s.defaultOf(key)
  }

  predicate ImpliedIsDefault(s: Schema, level: Level, raw: Raw, key: Key) {
    key in raw.values && key !in raw.explicit ==>
      Height(level) == 0 && s.inheritanceOf(key) != PasswordChoice && s.defaultOf(key) == Some(raw.values[key])
  }

  /** A value that did not stand in the file is the final default, and only global sections have such values. */
  ghost predicate ImpliedAreDefaults(s: Schema, raws: RawByLevel) {
    forall level, key :: ImpliedIsDefault(s, level, raws(level), key)
  }

  /** The effective value is the one at its origin: false and the empty list stop inheritance, credentials move as a triple. */
  lemma {:induction false} NearestIsAtOrigin(s: Schema, level: Level, key: Key, raws: RawByLevel)
    requires Chained(s) && PlainPasswords(s) && ImpliedAreDefaults(s, raws)
    requires s.inheritanceOf(key) == PasswordChoice ==> forall k :: k in PasswordKeys() ==> s.inheritanceOf(k) == PasswordChoice
    requires Height(level) > 0 ==> s.parentOf(level, key).Some?
    ensures Nearest(s, Chain(s, level, key, raws), key) == OriginValue(s, level, key, raws)
    decreases Height(level)
  {
    var parent := s.parentOf(level, key);
    if parent.Some? && Height(parent.value) < Height(level) {
      assert Linked(s, level, key, parent.value);
      NearestIsAtOrigin(s, parent.value, key, raws);
      DecidesIsExplicit(s, level, key, raws);
      NearestAbove(s, raws(level), Chain(s, parent.value, key, raws), key);
    } else {
      NearestAtTop(s, level, key, raws);
    }
  }

  lemma NearestAbove(s: Schema, raw: Raw, above: seq<Raw>, key: Key)
    ensures Nearest(s, [raw] + above, key) == if Decides(s, raw, key) then Get(raw, key) else Nearest(s, above, key)
  {
    assert ([raw] + above)[1..] == above;
  }

  lemma NearestAtTop(s: Schema, level: Level, key: Key, raws: RawByLevel)
    requires ImpliedAreDefaults(s, raws) && Height(level) == 0
    requires s.inheritanceOf(key) == PasswordChoice ==> forall k :: k in PasswordKeys() ==> s.inheritanceOf(k) == PasswordChoice
    ensures Nearest(s, [raws(level)], key) == if SetsExplicitly(s, raws(level), key) then Get(raws(level), key) else s.defaultOf(key)
  {
    NearestAbove(s, raws(level), [], key);
    assert [raws(level)] + [] == [raws(level)];
    assert ImpliedIsDefault(s, level, raws(level), key);
    if s.inheritanceOf(key) == PasswordChoice {
      PasswordsAreExplicit(s, level, key, raws);
    }
  }

  lemma DecidesIsExplicit(s: Schema, level: Level, key: Key, raws: RawByLevel)
    requires ImpliedAreDefaults(s, raws) && Height(level) > 0
    ensures Decides(s, raws(level), key) <==> SetsExplicitly(s, raws(level), key)
  {
    var raw := raws(level);
    forall k | k in raws(level).values
      ensures k in raws(level).explicit
    {
      assert ImpliedIsDefault(s, level, raws(level), k);
    }
    if AnyPassword(raw) {
      var k := if Password in raw.values then Password else if PasswordEnv in raw.values then PasswordEnv else PasswordFile;
      assert k in PasswordKeys() && k in raw.explicit && k in raw.values;
    }
  }

  lemma PasswordsAreExplicit(s: Schema, level: Level, key: Key, raws: RawByLevel)
    requires ImpliedAreDefaults(s, raws) && s.inheritanceOf(key) == PasswordChoice
    requires forall k :: k in PasswordKeys() ==> s.inheritanceOf(k) == PasswordChoice
    ensures Decides(s, raws(level), key) <==> SetsExplicitly(s, raws(level), key)
  {
    var raw := raws(level);
    forall k | k in PasswordKeys() && k in raw.values
      ensures k in raw.explicit
    {
      assert ImpliedIsDefault(s, level, raws(level), k);
    }
    if AnyPassword(raw) {
      var k := if Password in raw.values then Password else if PasswordEnv in raw.values then PasswordEnv else PasswordFile;
      assert k in PasswordKeys() && k in raw.explicit && k in raw.values;
    }
  }

  // ----- when the two agree -----

  /** The nearest level whose section names the key holds a value for it: it was not normalised to None. */
  predicate NearestIsNotNone(s: Schema, level: Level, key: Key, raws: RawByLevel)
    decreases Height(level)
  {
    if key in raws(level).explicit then key in raws(level).values
    else
      var parent := s.parentOf(level, key);
      parent.Some? && Height(parent.value) < Height(level) ==> NearestIsNotNone(s, parent.value, key, raws)
  }

  /** The attributed level is the origin exactly if the nearest level that names the key holds a value. */
  lemma {:induction false} SourceIsOriginIff(s: Schema, level: Level, key: Key, raws: RawByLevel)
    requires Chained(s) && s.inheritanceOf(key) != PasswordChoice
    ensures Walk(s, level, key, raws) == Origin(s, level, key, raws) <==> NearestIsNotNone(s, level, key, raws)
    decreases Height(level)
  {
    var parent := s.parentOf(level, key);
    if parent.Some? && Height(parent.value) < Height(level) {
      assert Linked(s, level, key, parent.value);
      SourceIsOriginIff(s, parent.value, key, raws);
      OriginIsAbove(s, parent.value, key, raws);
    }
  }

  /** An origin found from a level on is that level or one above it. */
  lemma {:induction false} OriginIsAbove(s: Schema, level: Level, key: Key, raws: RawByLevel)
    requires Chained(s)
    ensures Height(level) < 2 ==> Origin(s, level, key, raws) != Task
    ensures Height(level) < 1 ==> Origin(s, level, key, raws) != JobSource
    decreases Height(level)
  {
    var parent := s.parentOf(level, key);
    if parent.Some? && Height(parent.value) < Height(level) {
      OriginIsAbove(s, parent.value, key, raws);
    }
  }

  predicate NamesPassword(raw: Raw) {
    raw.explicit * PasswordKeys() != {}
  }

  predicate HoldsPassword(raw: Raw) {
    exists k :: k in PasswordKeys() && k in raw.explicit && k in raw.values
  }

  /** The nearest level that names any of the three password fields holds one of them. */
  predicate NearestHoldsPassword(raws: RawByLevel) {
    if NamesPassword(raws(BackupTask)) then HoldsPassword(raws(BackupTask))
    else if NamesPassword(raws(JobBackup)) then HoldsPassword(raws(JobBackup))
    else NamesPassword(raws(GlobalBackup)) ==> HoldsPassword(raws(GlobalBackup))
  }

  /** For the credentials the same holds of the nearest level that names any of the three password fields. */
  lemma CredentialsSourceIsOriginIff(key: Key, raws: RawByLevel)
    requires IsPassword(key)
    ensures CredentialsSource(raws) == Origin(CONFIG_FIELDS, BackupTask, key, raws) <==>
              NearestHoldsPassword(raws)
  {
    var s := CONFIG_FIELDS;
    assert s.parentOf(BackupTask, key) == ParentOf(BackupTask, key) == Some(JobBackup);
    assert s.parentOf(JobBackup, key) == ParentOf(JobBackup, key) == Some(GlobalBackup);
    assert s.parentOf(GlobalBackup, key) == ParentOf(GlobalBackup, key) == None;
    assert s.inheritanceOf(key) == PasswordChoice;
    HoldsNames(raws(BackupTask));
    HoldsNames(raws(JobBackup));
    HoldsNames(raws(GlobalBackup));
  }

  lemma HoldsNames(raw: Raw)
    ensures HoldsPassword(raw) ==> NamesPassword(raw)
  {
    if HoldsPassword(raw) {
      var k :| k in PasswordKeys() && k in raw.explicit && k in raw.values;
      assert k in raw.explicit * PasswordKeys();
    }
  }

  /** Together: for every field but the passwords, the value has the attributed origin whenever nothing was normalised away. */
  lemma EffectiveValueHasItsSource(level: Level, key: Key, raws: RawByLevel, r: Resolved)
    requires Height(level) > 0 && CONFIG_FIELDS.parentOf(level, key).Some? && CONFIG_FIELDS.inheritanceOf(key) != PasswordChoice
    requires ImpliedAreDefaults(CONFIG_FIELDS, raws) && FieldNearest(CONFIG_FIELDS, raws, level, key, r)
    requires NearestIsNotNone(CONFIG_FIELDS, level, key, raws)
    ensures Walk(CONFIG_FIELDS, level, key, raws) == Origin(CONFIG_FIELDS, level, key, raws)
    ensures r[CONFIG_FIELDS.nameOf(key)] == OriginValue(CONFIG_FIELDS, level, key, raws)
  {
    ConfigFieldsAreChained();
    ConfigPasswordsArePlain();
    SourceIsOriginIff(CONFIG_FIELDS, level, key, raws);
    NearestIsAtOrigin(CONFIG_FIELDS, level, key, raws);
  }

  /** The same for the credentials: all three fields come from the attributed level whenever it holds one of them. */
  lemma EffectiveCredentialsHaveTheirSource(key: Key, raws: RawByLevel, r: Resolved)
    requires IsPassword(key) && ImpliedAreDefaults(CONFIG_FIELDS, raws) && FieldNearest(CONFIG_FIELDS, raws, BackupTask, key, r)
    requires NearestHoldsPassword(raws)
    ensures CredentialsSource(raws) == Origin(CONFIG_FIELDS, BackupTask, key, raws)
    ensures r[CONFIG_FIELDS.nameOf(key)] == OriginValue(CONFIG_FIELDS, BackupTask, key, raws)
  {
    ConfigFieldsAreChained();
    ConfigPasswordsArePlain();
    CredentialsSourceIsOriginIff(key, raws);
    assert CONFIG_FIELDS.parentOf(BackupTask, key) == ParentOf(BackupTask, key);
    forall k | k in PasswordKeys()
      ensures CONFIG_FIELDS.inheritanceOf(k) == PasswordChoice
    {
      assert InheritanceOf(k) == PasswordChoice;
    }
    NearestIsAtOrigin(CONFIG_FIELDS, BackupTask, key, raws);
  }

  /** Nothing normalises a password field to None, so in a configuration read from a file the credentials' source is right. */
  lemma WrittenPasswordsHaveTheirSource(key: Key, raws: RawByLevel)
    requires IsPassword(key)
    requires forall level, k :: k in PasswordKeys() && k in raws(level).explicit ==> k in raws(level).values
    ensures CredentialsSource(raws) == Origin(CONFIG_FIELDS, BackupTask, key, raws)
  {
    CredentialsSourceIsOriginIff(key, raws);
    NamedIsHeld(raws(BackupTask));
    NamedIsHeld(raws(JobBackup));
    NamedIsHeld(raws(GlobalBackup));
  }

  lemma NamedIsHeld(raw: Raw)
    requires forall k :: k in PasswordKeys() && k in raw.explicit ==> k in raw.values
    ensures NamesPassword(raw) ==> HoldsPassword(raw)
  {
    if NamesPassword(raw) {
      var k :| k in raw.explicit * PasswordKeys();
      assert k in PasswordKeys() && k in raw.explicit && k in raw.values;
    }
  }

  // ----- two configurations whose attribution is wrong -----

  /** A backup task and its job's backup section; every other section is empty. */
  function TwoSections(task: Raw, section: Raw): RawByLevel {
    (level: Level) => if level == BackupTask then task else if level == JobBackup then section else Raw(map[], {})
  }

  /** A task that sets `keep_within` to the empty text, which is normalised to None: the value comes from the job. */
  lemma NormalisedFieldIsMisattributed()
    ensures var raws := TwoSections(Raw(map[], {KeepWithin}), Raw(map[KeepWithin := Words("2d")], {KeepWithin}));
            && Walk(CONFIG_FIELDS, BackupTask, KeepWithin, raws) == Task
            && Origin(CONFIG_FIELDS, BackupTask, KeepWithin, raws) == JobSource
            && OriginValue(CONFIG_FIELDS, BackupTask, KeepWithin, raws) == Some(Words("2d"))
  {
    assert CONFIG_FIELDS.parentOf(BackupTask, KeepWithin) == ParentOf(BackupTask, KeepWithin) == Some(JobBackup);
    assert CONFIG_FIELDS.inheritanceOf(KeepWithin) == InheritanceOf(KeepWithin);
  }

  /** A task that names `password_env` as None, which code can do and no file: the credentials come from the job's password file. */
  lemma NormalisedPasswordIsMisattributed()
    ensures var raws := TwoSections(Raw(map[], {PasswordEnv}), Raw(map[PasswordFile := Words("f")], {PasswordFile}));
            && CredentialsSource(raws) == Task
            && Origin(CONFIG_FIELDS, BackupTask, PasswordFile, raws) == JobSource
            && OriginValue(CONFIG_FIELDS, BackupTask, PasswordFile, raws) == Some(Words("f"))
  {
    var task, section := Raw(map[], {PasswordEnv}), Raw(map[PasswordFile := Words("f")], {PasswordFile});
    assert CONFIG_FIELDS.parentOf(BackupTask, PasswordFile) == ParentOf(BackupTask, PasswordFile) == Some(JobBackup);
    assert CONFIG_FIELDS.inheritanceOf(PasswordFile) == PasswordChoice;
    assert PasswordEnv in task.explicit * PasswordKeys() && PasswordFile in PasswordKeys();
    assert SetsExplicitly(CONFIG_FIELDS, section, PasswordFile) && !SetsExplicitly(CONFIG_FIELDS, task, PasswordFile);
  }

  // ----- the schema in use -----

  /** What the models of the sections hold when nothing is written: the switches of the global sections are off. */
  function Unwritten(): RawByLevel {
    (level: Level) =>
      if level == Global then Raw(map[NotifyOnSuccess := Flag(false), NotifyOnError := Flag(false), NotifyOnSkipped := Flag(false)], {})
      else if level == GlobalBackup then Raw(map[Retention := Flag(false), Cleanup := Flag(false), AutoInit := Flag(false)], {})
      else Raw(map[], {})
  }

  /** Those values are the final defaults, as the attribution takes for granted. */
  lemma UnwrittenAreDefaults()
    ensures ImpliedAreDefaults(CONFIG_FIELDS, Unwritten())
  {
    forall level, key
      ensures ImpliedIsDefault(CONFIG_FIELDS, level, Unwritten()(level), key)
    {
      assert CONFIG_FIELDS.defaultOf(key) == DefaultOf(key) && CONFIG_FIELDS.inheritanceOf(key) == InheritanceOf(key);
    }
  }

  /** With nothing written switches are off, lists are empty, and everything else has no value. */
  lemma UnwrittenValue(level: Level, key: Key)
    requires Height(level) > 0 && CONFIG_FIELDS.parentOf(level, key).Some?
    ensures Nearest(CONFIG_FIELDS, Chain(CONFIG_FIELDS, level, key, Unwritten()), key) ==
            if key in {Retention, Cleanup, AutoInit, SyncDelete, NotifyOnSuccess, NotifyOnError, NotifyOnSkipped} then Some(Flag(false))
            else if key in {Exclude, ExcludeFiles, ExtraResticBackupArgs, ExtraResticForgetArgs, ExtraResticPruneArgs, ExtraRcloneArgs} then Some(Items([]))
            else None
  {
    ConfigFieldsAreChained();
    ConfigPasswordsArePlain();
    UnwrittenAreDefaults();
    PasswordsInheritTogether();
    NearestIsAtOrigin(CONFIG_FIELDS, level, key, Unwritten());
    NothingIsExplicit(CONFIG_FIELDS, level, key, Unwritten());
    DefaultsSpeltOut(key);
  }

  lemma DefaultsSpeltOut(key: Key)
    ensures CONFIG_FIELDS.defaultOf(key) ==
            if key in {Retention, Cleanup, AutoInit, SyncDelete, NotifyOnSuccess, NotifyOnError, NotifyOnSkipped} then Some(Flag(false))
            else if key in {Exclude, ExcludeFiles, ExtraResticBackupArgs, ExtraResticForgetArgs, ExtraResticPruneArgs, ExtraRcloneArgs} then Some(Items([]))
            else None
  {
    assert CONFIG_FIELDS.defaultOf(key) == DefaultOf(key);
  }

  lemma PasswordsInheritTogether()
    ensures forall k :: k in PasswordKeys() ==> CONFIG_FIELDS.inheritanceOf(k) == PasswordChoice
  {
    forall k | k in PasswordKeys()
      ensures CONFIG_FIELDS.inheritanceOf(k) == PasswordChoice
    {
      assert InheritanceOf(k) == PasswordChoice;
    }
  }

  lemma NothingSets(s: Schema, raw: Raw, key: Key)
    requires raw.explicit == {}
    ensures !SetsExplicitly(s, raw, key)
  { }

  lemma OneLevelUp(s: Schema, level: Level, key: Key, raws: RawByLevel)
    requires !SetsExplicitly(s, raws(level), key)
    ensures var parent := s.parentOf(level, key);
            OriginValue(s, level, key, raws) ==
            if parent.Some? && Height(parent.value) < Height(level) then OriginValue(s, parent.value, key, raws) else s.defaultOf(key)
  { }

  lemma {:induction false} NothingIsExplicit(s: Schema, level: Level, key: Key, raws: RawByLevel)
    requires forall l :: raws(l).explicit == {}
    ensures OriginValue(s, level, key, raws) == s.defaultOf(key)
    decreases Height(level)
  {
    var parent := s.parentOf(level, key);
    NothingSets(s, raws(level), key);
    OneLevelUp(s, level, key, raws);
    if parent.Some? && Height(parent.value) < Height(level) {
      NothingIsExplicit(s, parent.value, key, raws);
    }
  }

  /** Common fields reach every kind of task through the job and the global section. */
  lemma CommonFieldsReachEveryTask(task: Level, key: Key, raws: RawByLevel)
    requires task == BackupTask || task == WorkflowTask || task == RcloneTask
    requires key == HookTimeout || key == NotifyOnSuccess || key == NotifyOnError || key == NotifyOnSkipped
    ensures Chain(CONFIG_FIELDS, task, key, raws) == [raws(task), raws(Job), raws(Global)]
  {
    ThreeLevels(task, Job, Global, key, raws);
  }

  /** What is for transfers reaches transfers through the job's rclone section and the global one. */
  lemma RcloneFieldsReachTransfers(key: Key, raws: RawByLevel)
    requires key in {RcloneTimeout, Transfers, Checkers, Bwlimit, SyncDelete, FilterFrom, ExtraRcloneArgs, Exclude}
    ensures Chain(CONFIG_FIELDS, RcloneTask, key, raws) == [raws(RcloneTask), raws(JobRclone), raws(GlobalRclone)]
  {
    ThreeLevels(RcloneTask, JobRclone, GlobalRclone, key, raws);
  }

  /** Everything else, and the excludes, reaches backups through the job's backup section and the global one. */
  lemma BackupFieldsReachBackups(key: Key, raws: RawByLevel)
    requires key !in {HookTimeout, NotifyOnSuccess, NotifyOnError, NotifyOnSkipped}
    requires key !in {RcloneTimeout, Transfers, Checkers, Bwlimit, SyncDelete, FilterFrom, ExtraRcloneArgs}
    ensures Chain(CONFIG_FIELDS, BackupTask, key, raws) == [raws(BackupTask), raws(JobBackup), raws(GlobalBackup)]
  {
    ThreeLevels(BackupTask, JobBackup, GlobalBackup, key, raws);
  }

  lemma ThreeLevels(task: Level, section: Level, global: Level, key: Key, raws: RawByLevel)
    requires Height(task) == 2 && Height(section) == 1 && Height(global) == 0
    requires ParentOf(task, key) == Some(section) && ParentOf(section, key) == Some(global)
    ensures Chain(CONFIG_FIELDS, task, key, raws) == [raws(task), raws(section), raws(global)]
  {
    assert CONFIG_FIELDS.parentOf(task, key) == ParentOf(task, key);
    assert CONFIG_FIELDS.parentOf(section, key) == ParentOf(section, key);
    TopOfChain(CONFIG_FIELDS, global, key, raws);
    assert Chain(CONFIG_FIELDS, section, key, raws) == [raws(section)] + [raws(global)];
  }
}
