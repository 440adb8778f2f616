/** The inheritance schema: which field lives on which level, from where it inherits, and its final default. */
module ConfigSchema {
  import opened Wrappers

  datatype Level = Global | GlobalBackup | GlobalRclone | Job | JobBackup | JobRclone | BackupTask | WorkflowTask | RcloneTask

  /** Raw field names. */
  datatype Key =
    | Password | PasswordEnv | PasswordFile
    | Retention | Cleanup | AutoInit | ExcludeCaches | OneFileSystem
    | KeepLast | KeepHourly | KeepDaily | KeepWeekly | KeepMonthly | KeepYearly
    | KeepWithin | KeepWithinHourly | KeepWithinDaily | KeepWithinWeekly | KeepWithinMonthly | KeepWithinYearly
    | Exclude | ExcludeFiles | ExtraResticBackupArgs | ExtraResticForgetArgs | ExtraResticPruneArgs | BackupTimeout
    | RcloneTimeout | Transfers | Checkers | Bwlimit | SyncDelete | FilterFrom | ExtraRcloneArgs
    | HookTimeout | NotifyOnSuccess | NotifyOnError | NotifyOnSkipped

  /** Resolved field names: the raw one unless it is renamed. */
  datatype Name = Same(key: Key) | ExtraBackupArgs | ExtraForgetArgs | ExtraPruneArgs | ExtraArgs

  datatype Value = Flag(flag: bool) | Number(number: int) | Words(text: string) | Items(items: seq<string>)

  datatype Inheritance = ScalarOverride | ListOverride | PasswordChoice

  datatype ConfigField = ConfigField(key: Key, resolvedKey: Name, level: Level, parentLevel: Level, inheritance: Inheritance, default: Option<Value>)

  /** A schema says of each key on each level from where it inherits, how, under which name, and its final default. */
  datatype Schema = Schema(
    parentOf: (Level, Key) -> Option<Level>, inheritanceOf: Key -> Inheritance, defaultOf: Key -> Option<Value>, nameOf: Key -> Name,
    keyOf: Name -> Key)
  {
    function FieldOf(level: Level, key: Key): Option<ConfigField> {
      var parent := parentOf(level, key);
      if parent.None? then None
      else Some(ConfigField(key, nameOf(key), level, parent.value, inheritanceOf(key), defaultOf(key)))
    }

    function FieldsForLevel(level: Level): set<Key> {
      set key: Key | parentOf(level, key).Some?
    }
  }

  function Height(level: Level): nat {
    match level
    case Global => 0
    case GlobalBackup => 0
    case GlobalRclone => 0
    case Job => 1
    case JobBackup => 1
    case JobRclone => 1
    case _ => 2
  }

  /** The section above a job section. */
  function GlobalOf(level: Level): Level {
    if level == JobBackup then GlobalBackup else if level == JobRclone then GlobalRclone else Global
  }

  /** Names are distinct; a task field inherits from a job section that has the field too, and that from a global one. */
  ghost predicate Chained(s: Schema) {
    && (forall key :: s.keyOf(s.nameOf(key)) == key)
    && (forall level, key :: s.parentOf(level, key).Some? ==> Linked(s, level, key, s.parentOf(level, key).value))
  }

  predicate Linked(s: Schema, level: Level, key: Key, parent: Level) {
    && Height(level) == Height(parent) + 1
    && (Height(parent) == 0 ==> parent == GlobalOf(level))
    && (Height(parent) > 0 ==> s.parentOf(parent, key) == Some(GlobalOf(parent)))
  }

  function ResolvedName(key: Key): Name {
    match key
    case ExtraResticBackupArgs => ExtraBackupArgs
    case ExtraResticForgetArgs => ExtraForgetArgs
    case ExtraResticPruneArgs => ExtraPruneArgs
    case ExtraRcloneArgs => ExtraArgs
    case _ => Same(key)
  }

  function KeyOf(name: Name): Key {
    match name
    case Same(key) => key
    case ExtraBackupArgs => ExtraResticBackupArgs
    case ExtraForgetArgs => ExtraResticForgetArgs
    case ExtraPruneArgs => ExtraResticPruneArgs
    case ExtraArgs => ExtraRcloneArgs
  }

  predicate IsPassword(key: Key) {
    key in {Password, PasswordEnv, PasswordFile}
  }

  predicate IsCommonKey(key: Key) {
    key in {HookTimeout, NotifyOnSuccess, NotifyOnError, NotifyOnSkipped}
  }

  predicate IsRcloneKey(key: Key) {
    key in {RcloneTimeout, Transfers, Checkers, Bwlimit, SyncDelete, FilterFrom, ExtraRcloneArgs, Exclude}
  }

  /** `exclude` exists for backups and for rclone tasks. */
  predicate IsBackupKey(key: Key) {
    !IsCommonKey(key) && (key == Exclude || !IsRcloneKey(key))
  }

  function InheritanceOf(key: Key): Inheritance {
    if IsPassword(key) then PasswordChoice
    else if key in {Exclude, ExcludeFiles, ExtraResticBackupArgs, ExtraResticForgetArgs, ExtraResticPruneArgs, ExtraRcloneArgs} then ListOverride
    else ScalarOverride
  }

  function DefaultOf(key: Key): Option<Value> {
    if key in {Retention, Cleanup, AutoInit, SyncDelete, NotifyOnSuccess, NotifyOnError, NotifyOnSkipped} then Some(Flag(false))
    else if InheritanceOf(key) == ListOverride then Some(Items([]))
    else None
  }

  /** Where a field of a level inherits from; none if the level has no such inheriting field. */
  function ParentOf(level: Level, key: Key): Option<Level> {
    match level
    case Job => if IsCommonKey(key) then Some(Global) else None
    case JobBackup => if IsBackupKey(key) then Some(GlobalBackup) else None
    case JobRclone => if IsRcloneKey(key) then Some(GlobalRclone) else None
    case BackupTask => if IsCommonKey(key) then Some(Job) else if IsBackupKey(key) then Some(JobBackup) else None
    case WorkflowTask => if IsCommonKey(key) then Some(Job) else None
    case RcloneTask => if IsCommonKey(key) then Some(Job) else if IsRcloneKey(key) then Some(JobRclone) else None
    case _ => None
  }

  /** The schema of the configuration. */
  const CONFIG_FIELDS := Schema(ParentOf, InheritanceOf, DefaultOf, ResolvedName, KeyOf)

  lemma ConfigFieldsAreChained()
    ensures Chained(CONFIG_FIELDS)
  {
    forall level, key | CONFIG_FIELDS.parentOf(level, key).Some?
      ensures Linked(CONFIG_FIELDS, level, key, CONFIG_FIELDS.parentOf(level, key).value)
    {
      assert ParentOf(level, key).Some?;
    }
    forall key
      ensures CONFIG_FIELDS.keyOf(CONFIG_FIELDS.nameOf(key)) == key
    {
      assert KeyOf(ResolvedName(key)) == key;
    }
  }

  /** Extra arguments lose the name of their tool when they are resolved; every other field keeps its name. */
  lemma ResolvedNames(key: Key)
    ensures ResolvedName(ExtraResticBackupArgs) == ExtraBackupArgs && ResolvedName(ExtraResticForgetArgs) == ExtraForgetArgs
    ensures ResolvedName(ExtraResticPruneArgs) == ExtraPruneArgs && ResolvedName(ExtraRcloneArgs) == ExtraArgs
    ensures key !in {ExtraResticBackupArgs, ExtraResticForgetArgs, ExtraResticPruneArgs, ExtraRcloneArgs} ==> ResolvedName(key) == Same(key)
  { }
}
