/** Resolving a configuration level by level, against "the nearest level that sets it", and naming that level. */
module ConfigInheritance {
  import opened Wrappers
  import opened ConfigSchema

  /** A raw section: its values that are not None, and the keys that stood in the file. */
  datatype Raw = Raw(values: map<Key, Value>, explicit: set<Key>)

  type RawByLevel = Level -> Raw

  /** What resolving a level yields, by resolved name; None is a value. */
  type Resolved = map<Name, Option<Value>>

  function Get(raw: Raw, key: Key): Option<Value> {
    if key in raw.values then Some(raw.values[key]) else None
  }

  function Parent(parent: Resolved, name: Name, default: Option<Value>): Option<Value> {
    if name in parent then parent[name] else default
  }

  // ----- one field -----

  function ResolveScalar(f: ConfigField, child: Raw, parent: Resolved): Option<Value> {
    var value := Get(child, f.key);
    if value.Some? then value
    else
      var inherited := Parent(parent, f.resolvedKey, f.default);
      if inherited.None? then f.default else inherited
  }

  function ResolveList(f: ConfigField, child: Raw, parent: Resolved): Option<Value> {
    var value := Get(child, f.key);
    if value.Some? then value
    else
      var inherited := Parent(parent, f.resolvedKey, None);
      if inherited.None? then f.default else inherited
  }

  predicate AnyPassword(raw: Raw) {
    Password in raw.values || PasswordEnv in raw.values || PasswordFile in raw.values
  }

  /** The three password fields move together: a child that sets one of them takes none from its parent. */
  function ResolvePassword(f: ConfigField, child: Raw, parent: Resolved): Option<Value> {
    if AnyPassword(child) then Get(child, f.key) else Parent(parent, f.resolvedKey, None)
  }

  function ResolveField(f: ConfigField, child: Raw, parent: Resolved): Option<Value> {
    match f.inheritance
    case ScalarOverride => ResolveScalar(f, child, parent)
    case ListOverride => ResolveList(f, child, parent)
    case PasswordChoice => ResolvePassword(f, child, parent)
  }

  // ----- one level -----

  function ParentDict(parents: map<Level, Resolved>, level: Level): Resolved {
    if level in parents then parents[level] else map[]
  }

  ghost predicate FieldResolved(s: Schema, level: Level, key: Key, child: Raw, parents: map<Level, Resolved>, r: Resolved)
    requires s.parentOf(level, key).Some?
  {
    var f := s.FieldOf(level, key).value;
    f.resolvedKey in r && r[f.resolvedKey] == ResolveField(f, child, ParentDict(parents, f.parentLevel))
  }

  ghost predicate IsResolvedLevel(s: Schema, level: Level, child: Raw, parents: map<Level, Resolved>, r: Resolved) {
    && (forall key :: s.parentOf(level, key).Some? ==> FieldResolved(s, level, key, child, parents, r))
    && (forall name :: name in r ==> NamesField(s, level, name))
  }

  ghost predicate NamesField(s: Schema, level: Level, name: Name) {
    exists key :: s.parentOf(level, key).Some? && s.nameOf(key) == name
  }

  lemma StoreResolved(
      s: Schema, level: Level, child: Raw, parents: map<Level, Resolved>, r: Resolved, key: Key, value: Option<Value>, rest: set<Key>)
    requires Chained(s) && s.parentOf(level, key).Some?
    requires value == ResolveField(s.FieldOf(level, key).value, child, ParentDict(parents, s.parentOf(level, key).value))
    requires forall k :: s.parentOf(level, k).Some? && k !in rest ==> FieldResolved(s, level, k, child, parents, r)
    requires forall name :: name in r ==> NamesField(s, level, name)
    ensures var after := r[s.nameOf(key) := value];
            && (forall k :: s.parentOf(level, k).Some? && k !in rest - {key} ==> FieldResolved(s, level, k, child, parents, after))
            && (forall name :: name in after ==> NamesField(s, level, name))
  {
    var after := r[s.nameOf(key) := value];
    assert NamesField(s, level, s.nameOf(key));
    forall k | s.parentOf(level, k).Some? && k !in rest - {key}
      ensures FieldResolved(s, level, k, child, parents, after)
    {
      assert s.keyOf(s.nameOf(k)) == k && s.keyOf(s.nameOf(key)) == key;
    }
  }

  method ResolveLevel(s: Schema, level: Level, child: Raw, parents: map<Level, Resolved>) returns (r: Resolved)
    requires Chained(s)
    ensures IsResolvedLevel(s, level, child, parents, r)
  {
    r := map[];
    var rest := s.FieldsForLevel(level);
    while rest != {}
      invariant rest <= s.FieldsForLevel(level)
      invariant forall key :: s.parentOf(level, key).Some? && key !in rest ==> FieldResolved(s, level, key, child, parents, r)
      invariant forall name :: name in r ==> NamesField(s, level, name)
      decreases |rest|
    {
      var key :| key in rest;
      var f := s.FieldOf(level, key).value;
      var value := ResolveField(f, child, ParentDict(parents, f.parentLevel));
      StoreResolved(s, level, child, parents, r, key, value, rest);
      r, rest := r[f.resolvedKey := value], rest - {key};
    }
  }

  function NamesFrom(s: Schema, childLevel: Level, parentLevel: Level): set<Name> {
    set key: Key | s.parentOf(childLevel, key) == Some(parentLevel) :: s.nameOf(key)
  }

  /** The values of a global section, under the names its children look them up by. */
  function ParentRawValues(s: Schema, raw: Raw, childLevel: Level, parentLevel: Level): Resolved {
    map name | name in NamesFrom(s, childLevel, parentLevel) :: Get(raw, s.keyOf(name))
  }

  // ----- the reference: the nearest level that decides -----

  /** A level decides a field by setting it; the password fields are decided together. */
  predicate Decides(s: Schema, raw: Raw, key: Key) {
    if s.inheritanceOf(key) == PasswordChoice then AnyPassword(raw) else key in raw.values
  }

  /** The sections from a task up to its global one, for one field. */
  function Chain(s: Schema, level: Level, key: Key, raws: RawByLevel): seq<Raw>
    decreases Height(level)
  {
    var parent := s.parentOf(level, key);
    [raws(level)] + if parent.Some? && Height(parent.value) < Height(level) then Chain(s, parent.value, key, raws) else []
  }

  function Nearest(s: Schema, chain: seq<Raw>, key: Key): Option<Value> {
    if chain == [] then s.defaultOf(key)
    else if Decides(s, chain[0], key) then Get(chain[0], key)
    else Nearest(s, chain[1..], key)
  }

  /** A missing value in a parent stands for the default. */
  function Inherited(s: Schema, value: Option<Value>, key: Key): Option<Value> {
    if value.None? then s.defaultOf(key) else value
  }

  /** Password fields have no default. */
  ghost predicate PlainPasswords(s: Schema) {
    forall key :: s.inheritanceOf(key) == PasswordChoice ==> IsPassword(key) && s.defaultOf(key).None?
  }

  /** One field: resolving a child over the value of the chain above it is the nearest value of the longer chain. */
  lemma ResolveIsNearest(s: Schema, level: Level, key: Key, child: Raw, parent: Resolved, above: seq<Raw>)
    requires PlainPasswords(s) && s.parentOf(level, key).Some?
    requires s.nameOf(key) in parent && Inherited(s, parent[s.nameOf(key)], key) == Nearest(s, above, key)
    ensures ResolveField(s.FieldOf(level, key).value, child, parent) == Nearest(s, [child] + above, key)
  {
    assert ([child] + above)[1..] == above;
  }

  lemma NearestOfOne(s: Schema, raw: Raw, key: Key)
    requires PlainPasswords(s)
    ensures Nearest(s, [raw], key) == Inherited(s, Get(raw, key), key)
  {
    assert [raw][1..] == [];
    assert Nearest(s, [], key) == s.defaultOf(key);
  }

  lemma {:induction false} NearestIsInherited(s: Schema, chain: seq<Raw>, key: Key)
    requires PlainPasswords(s)
    ensures Inherited(s, Nearest(s, chain, key), key) == Nearest(s, chain, key)
  {
    if chain != [] && !Decides(s, chain[0], key) {
      NearestIsInherited(s, chain[1..], key);
    }
  }

  // ----- whole configurations -----

  datatype RawJob = RawJob(top: Raw, backup: Raw, rclone: Raw, backups: map<string, Raw>, workflows: map<string, Raw>, rclones: map<string, Raw>)

  datatype RawConfig = RawConfig(top: Raw, backup: Raw, rclone: Raw, jobs: map<string, RawJob>)

  datatype ResolvedJob = ResolvedJob(job: Resolved, backups: map<string, Resolved>, workflows: map<string, Resolved>, rclones: map<string, Resolved>)

  /** The sections one task is resolved against; `task` stands on its own level. */
  function RawsOf(c: RawConfig, job: RawJob, task: Raw): RawByLevel {
    (level: Level) =>
      match level
      case Global => c.top
      case GlobalBackup => c.backup
      case GlobalRclone => c.rclone
      case Job => job.top
      case JobBackup => job.backup
      case JobRclone => job.rclone
      case _ => task
  }

  ghost predicate FieldNearest(s: Schema, raws: RawByLevel, level: Level, key: Key, r: Resolved)
  {
    s.nameOf(key) in r && r[s.nameOf(key)] == Nearest(s, Chain(s, level, key, raws), key)
  }

  /** Every inheriting field has the value of the nearest level that decides it, or the default. */
  ghost predicate IsNearest(s: Schema, raws: RawByLevel, level: Level, r: Resolved)
  {
    forall key :: s.parentOf(level, key).Some? ==> FieldNearest(s, raws, level, key, r)
  }

  lemma JobFieldIsNearest(s: Schema, raws: RawByLevel, level: Level, parents: map<Level, Resolved>, r: Resolved, key: Key)
    requires Chained(s) && PlainPasswords(s) && Height(level) == 1
    requires s.parentOf(level, key).Some? && FieldResolved(s, level, key, raws(level), parents, r)
    requires parents == map[GlobalOf(level) := ParentRawValues(s, raws(GlobalOf(level)), level, GlobalOf(level))]
    ensures FieldNearest(s, raws, level, key, r)
  {
    var global := GlobalOf(level);
    var parent := ParentRawValues(s, raws(global), level, global);
    assert Linked(s, level, key, s.parentOf(level, key).value);
    assert s.nameOf(key) in NamesFrom(s, level, global) && s.keyOf(s.nameOf(key)) == key;
    NearestOfOne(s, raws(global), key);
    ResolveIsNearest(s, level, key, raws(level), parent, [raws(global)]);
    TopOfChain(s, global, key, raws);
  }

  lemma TopOfChain(s: Schema, global: Level, key: Key, raws: RawByLevel)
    requires Height(global) == 0
    ensures Chain(s, global, key, raws) == [raws(global)]
  { }

  lemma JobLevelIsNearest(s: Schema, raws: RawByLevel, level: Level, parents: map<Level, Resolved>, r: Resolved)
    requires Chained(s) && PlainPasswords(s) && Height(level) == 1
    requires IsResolvedLevel(s, level, raws(level), parents, r)
    requires parents == map[GlobalOf(level) := ParentRawValues(s, raws(GlobalOf(level)), level, GlobalOf(level))]
    ensures IsNearest(s, raws, level, r)
  {
    forall key | s.parentOf(level, key).Some?
      ensures FieldNearest(s, raws, level, key, r)
    {
      JobFieldIsNearest(s, raws, level, parents, r, key);
    }
  }

  ghost predicate ParentsNearest(s: Schema, raws: RawByLevel, parents: map<Level, Resolved>)
  {
    forall level :: level in parents ==> Height(level) == 1 && IsNearest(s, raws, level, parents[level])
  }

  ghost predicate HasParents(s: Schema, level: Level, parents: map<Level, Resolved>) {
    forall key :: s.parentOf(level, key).Some? ==> s.parentOf(level, key).value in parents
  }

  lemma TaskFieldIsNearest(s: Schema, raws: RawByLevel, level: Level, parents: map<Level, Resolved>, r: Resolved, key: Key)
    requires Chained(s) && PlainPasswords(s) && Height(level) == 2
    requires ParentsNearest(s, raws, parents) && HasParents(s, level, parents)
    requires s.parentOf(level, key).Some? && FieldResolved(s, level, key, raws(level), parents, r)
    ensures FieldNearest(s, raws, level, key, r)
  {
    var up := s.parentOf(level, key).value;
    assert Linked(s, level, key, up);
    assert IsNearest(s, raws, up, parents[up]);
    assert FieldNearest(s, raws, up, key, parents[up]);
    var above := Chain(s, up, key, raws);
    NearestIsInherited(s, above, key);
    ResolveIsNearest(s, level, key, raws(level), parents[up], above);
  }

  lemma TaskIsNearest(s: Schema, raws: RawByLevel, level: Level, parents: map<Level, Resolved>, r: Resolved)
    requires Chained(s) && PlainPasswords(s) && Height(level) == 2
    requires ParentsNearest(s, raws, parents) && HasParents(s, level, parents)
    requires IsResolvedLevel(s, level, raws(level), parents, r)
    ensures IsNearest(s, raws, level, r)
  {
    forall key | s.parentOf(level, key).Some?
      ensures FieldNearest(s, raws, level, key, r)
    {
      TaskFieldIsNearest(s, raws, level, parents, r, key);
    }
  }

  // ----- resolving a whole configuration -----

  ghost predicate JobNearest(s: Schema, c: RawConfig, job: RawJob, r: ResolvedJob) {
    && IsNearest(s, RawsOf(c, job, job.top), Job, r.job)
    && TasksNearest(s, c, job, BackupTask, job.backups, r.backups)
    && TasksNearest(s, c, job, WorkflowTask, job.workflows, r.workflows)
    && TasksNearest(s, c, job, RcloneTask, job.rclones, r.rclones)
  }

  ghost predicate TasksNearest(s: Schema, c: RawConfig, job: RawJob, level: Level, tasks: map<string, Raw>, r: map<string, Resolved>) {
    r.Keys == tasks.Keys && forall name :: name in tasks ==> IsNearest(s, RawsOf(c, job, tasks[name]), level, r[name])
  }

  /** The parents of every task of a job, whichever task it is. */
  ghost predicate JobParents(s: Schema, c: RawConfig, job: RawJob, parents: map<Level, Resolved>) {
    forall task :: ParentsNearest(s, RawsOf(c, job, task), parents)
  }

  method ResolveSection(s: Schema, ghost c: RawConfig, ghost job: RawJob, level: Level, child: Raw, global: Raw) returns (r: Resolved)
    requires Chained(s) && PlainPasswords(s) && Height(level) == 1
    requires child == RawsOf(c, job, child)(level) && global == RawsOf(c, job, child)(GlobalOf(level))
    ensures forall task :: IsNearest(s, RawsOf(c, job, task), level, r)
  {
    var parents := map[GlobalOf(level) := ParentRawValues(s, global, level, GlobalOf(level))];
    r := ResolveLevel(s, level, child, parents);
    forall task
      ensures IsNearest(s, RawsOf(c, job, task), level, r)
    {
      var raws := RawsOf(c, job, task);
      assert raws(level) == child && raws(GlobalOf(level)) == global;
      JobLevelIsNearest(s, raws, level, parents, r);
    }
  }

  method ResolveTask(s: Schema, ghost c: RawConfig, ghost job: RawJob, level: Level, task: Raw, parents: map<Level, Resolved>) returns (r: Resolved)
    requires Chained(s) && PlainPasswords(s) && Height(level) == 2
    requires JobParents(s, c, job, parents) && HasParents(s, level, parents)
    ensures IsNearest(s, RawsOf(c, job, task), level, r)
  {
    r := ResolveLevel(s, level, task, parents);
    assert ParentsNearest(s, RawsOf(c, job, task), parents);
    TaskIsNearest(s, RawsOf(c, job, task), level, parents, r);
  }

  method ResolveTasks(s: Schema, ghost c: RawConfig, ghost job: RawJob, level: Level, tasks: map<string, Raw>, parents: map<Level, Resolved>)
      returns (r: map<string, Resolved>)
    requires Chained(s) && PlainPasswords(s) && Height(level) == 2
    requires JobParents(s, c, job, parents) && HasParents(s, level, parents)
    ensures TasksNearest(s, c, job, level, tasks, r)
  {
    r := map[];
    var rest := tasks.Keys;
    while rest != {}
      invariant rest <= tasks.Keys && r.Keys == tasks.Keys - rest
      invariant forall name :: name in r ==> IsNearest(s, RawsOf(c, job, tasks[name]), level, r[name])
      decreases |rest|
    {
      var name :| name in rest;
      var resolved := ResolveTask(s, c, job, level, tasks[name], parents);
      r, rest := r[name := resolved], rest - {name};
    }
  }

  method ResolveJob(c: RawConfig, job: RawJob) returns (r: ResolvedJob)
    ensures JobNearest(CONFIG_FIELDS, c, job, r)
  {
    var s := CONFIG_FIELDS;
    ConfigFieldsAreChained();
    ConfigPasswordsArePlain();
    var top := ResolveSection(s, c, job, Job, job.top, c.top);
    var backup := ResolveSection(s, c, job, JobBackup, job.backup, c.backup);
    var rclone := ResolveSection(s, c, job, JobRclone, job.rclone, c.rclone);
    TaskParents();
    var backups := ResolveTasks(s, c, job, BackupTask, job.backups, map[Job := top, JobBackup := backup]);
    var workflows := ResolveTasks(s, c, job, WorkflowTask, job.workflows, map[Job := top]);
    var rclones := ResolveTasks(s, c, job, RcloneTask, job.rclones, map[Job := top, JobRclone := rclone]);
    r := ResolvedJob(top, backups, workflows, rclones);
  }

  /** For every configuration, each inheriting field of each job and task has the value of the nearest level that decides it. */
  method ResolveConfig(c: RawConfig) returns (jobs: map<string, ResolvedJob>)
    ensures jobs.Keys == c.jobs.Keys && forall name :: name in jobs ==> JobNearest(CONFIG_FIELDS, c, c.jobs[name], jobs[name])
  {
    jobs := map[];
    var rest := c.jobs.Keys;
    while rest != {}
      invariant rest <= c.jobs.Keys && jobs.Keys == c.jobs.Keys - rest
      invariant forall name :: name in jobs ==> JobNearest(CONFIG_FIELDS, c, c.jobs[name], jobs[name])
      decreases |rest|
    {
      var name :| name in rest;
      var resolved := ResolveJob(c, c.jobs[name]);
      jobs, rest := jobs[name := resolved], rest - {name};
    }
  }

  lemma ConfigPasswordsArePlain()
    ensures PlainPasswords(CONFIG_FIELDS)
  {
    forall key | CONFIG_FIELDS.inheritanceOf(key) == PasswordChoice
      ensures IsPassword(key) && CONFIG_FIELDS.defaultOf(key).None?
    {
      assert InheritanceOf(key) == PasswordChoice;
    }
  }

  lemma TaskParents()
    ensures forall key :: CONFIG_FIELDS.parentOf(BackupTask, key).Some? ==> CONFIG_FIELDS.parentOf(BackupTask, key).value in {Job, JobBackup}
    ensures forall key :: CONFIG_FIELDS.parentOf(WorkflowTask, key).Some? ==> CONFIG_FIELDS.parentOf(WorkflowTask, key).value in {Job}
    ensures forall key :: CONFIG_FIELDS.parentOf(RcloneTask, key).Some? ==> CONFIG_FIELDS.parentOf(RcloneTask, key).value in {Job, JobRclone}
  {
    forall level, key
      ensures CONFIG_FIELDS.parentOf(level, key) == ParentOf(level, key)
    { }
  }
}
