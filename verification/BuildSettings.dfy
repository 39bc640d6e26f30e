/** Build settings and the change between two of them (web/src/modules/repo-links/domain/build-settings.ts). */
module BuildSettings {
  import opened Options
  import opened JsStrings
  import BranchName
  import RootDirectory

  datatype Settings = Settings(productionBranch: JsString, rootDirectory: JsString, autoDeploy: bool)

  /** A patch: an absent field stays as it is. */
  datatype Change = Change(
    productionBranch: Option<JsString>, rootDirectory: Option<JsString>, autoDeploy: Option<bool>)

  datatype Field = PRODUCTION_BRANCH | ROOT_DIRECTORY | AUTO_DEPLOY

  /** What a form holds, as `buildSettingsSchema` reads it; none when it refuses. */
  function Parsed(form: Settings): Option<Settings> {
    var branch := BranchName.ParseBranchName(form.productionBranch);
    var directory := RootDirectory.ParseRootDirectory(form.rootDirectory);
    if branch.None? || directory.None? then None
    else Some(Settings(branch.value, directory.value, form.autoDeploy))
  }

  /**
   What a form is read as: its branch trimmed, which must obey the rules of one, its directory trimmed, which must be
   the root or obey the rules of one, without one trailing slash.
   */
  lemma ParsedExactly(form: Settings, next: Settings)
    ensures var branch, directory := Trim(form.productionBranch), Trim(form.rootDirectory);
            var name, path := CodePoints(branch), CodePoints(directory);
            Parsed(form) == Some(next)
            <==> && branch != [] && |BranchName.TextBytes(name)| <= 255
                 && BranchName.AllowedThroughout(name) && BranchName.BranchRules(name)
                 && (directory == [] || (|directory| <= 255 && RootDirectory.AllowedThroughout(path)
                                         && RootDirectory.DirectoryRules(path)))
                 && next.productionBranch == branch && next.autoDeploy == form.autoDeploy
                 && next.rootDirectory == if directory != [] && directory[|directory| - 1] == 0x2F
                                          then directory[..|directory| - 1] else directory
  {
    var branch, directory := Trim(form.productionBranch), Trim(form.rootDirectory);
    BranchName.ViolationMeaning(branch);
    BranchName.Utf8LengthMeaning(CodePoints(branch));
    RootDirectory.ViolationMeaning(directory);
    RootDirectory.NormalizeMeaning(directory);
  }

  /** Only what differs from the link as last read. */
  function BuildSettingsChange(current: Settings, next: Settings): Change {
    Change(if current.productionBranch != next.productionBranch then Some(next.productionBranch) else None,
           if current.rootDirectory != next.rootDirectory then Some(next.rootDirectory) else None,
           if current.autoDeploy != next.autoDeploy then Some(next.autoDeploy) else None)
  }

  function ChangedFields(change: Change): seq<Field> {
    (if change.productionBranch.Some? then [PRODUCTION_BRANCH] else [])
    + (if change.rootDirectory.Some? then [ROOT_DIRECTORY] else [])
    + (if change.autoDeploy.Some? then [AUTO_DEPLOY] else [])
  }

  function FieldOrder(field: Field): nat {
    match field case PRODUCTION_BRANCH => 0 case ROOT_DIRECTORY => 1 case AUTO_DEPLOY => 2
  }

  /** The fields a change has, each once and in the form's order. */
  lemma ChangedFieldsMeaning(change: Change)
    ensures var fields := ChangedFields(change);
            && (PRODUCTION_BRANCH in fields <==> change.productionBranch.Some?)
            && (ROOT_DIRECTORY in fields <==> change.rootDirectory.Some?)
            && (AUTO_DEPLOY in fields <==> change.autoDeploy.Some?)
            && forall i, j :: 0 <= i < j < |fields| ==> FieldOrder(fields[i]) < FieldOrder(fields[j])
  {
  }

  predicate IsNoChange(change: Change) { |ChangedFields(change)| == 0 }

  function OrKept<T>(field: Option<T>, kept: T): T {
    if field.Some? then field.value else kept
  }

  /** What a patch makes of settings. */
  function Apply(current: Settings, change: Change): Settings {
    Settings(OrKept(change.productionBranch, current.productionBranch),
             OrKept(change.rootDirectory, current.rootDirectory),
             OrKept(change.autoDeploy, current.autoDeploy))
  }

  /** The change leads exactly to what was asked for, and is empty exactly when that was already so. */
  lemma ChangeLeadsToNext(current: Settings, next: Settings)
    ensures Apply(current, BuildSettingsChange(current, next)) == next
    ensures IsNoChange(BuildSettingsChange(current, next)) <==> current == next
  {
    var change := BuildSettingsChange(current, next);
    assert |ChangedFields(change)| == 0 <==>
      change.productionBranch.None? && change.rootDirectory.None? && change.autoDeploy.None?;
  }

  /** What the form changed of the settings read, over the others as they are. */
  function Merged(theirs: Settings, read: Settings, form: Settings): Settings {
    Settings(if form.productionBranch != read.productionBranch then form.productionBranch else theirs.productionBranch,
             if form.rootDirectory != read.rootDirectory then form.rootDirectory else theirs.rootDirectory,
             if form.autoDeploy != read.autoDeploy then form.autoDeploy else theirs.autoDeploy)
  }

  /** Applied to any other settings, the change is merged into them field by field. */
  lemma ApplyMerges(theirs: Settings, read: Settings, form: Settings)
    ensures Apply(theirs, BuildSettingsChange(read, form)) == Merged(theirs, read, form)
  {
  }

  /** A form holding stored settings, valid and trimmed, changes nothing. */
  lemma StoredSettingsReparse(form: Settings)
    requires Parsed(form).Some? && IsTrimmed(Parsed(form).value.rootDirectory)
    ensures Parsed(Parsed(form).value) == Parsed(form)
  {
    var branch, directory := Trim(form.productionBranch), Trim(form.rootDirectory);
    TrimShape(form.productionBranch);
    TrimShape(branch);
    RootDirectory.NormalizeValid(directory);
    TrimShape(RootDirectory.Normalize(directory));
  }
}
