/**
 Tuning a repository link against a server that refuses stale versions
 (web/src/modules/repo-links/application/tune-repo-link.ts and ports.ts), by any number of clients.
 */
module TuneRepoLink {
  import opened Options
  import opened BuildSettings

  /**
   A link, disconnected or not, as of one version. `activity` stands for what a client never tunes but which makes a
   new version: the repository's name, who verifies it.
   */
  datatype Revision = Revision(settings: Settings, active: bool, version: nat, activity: nat)

  /** `upkeep` stands for what makes none: when access was last checked, the head accepted last. */
  datatype RepoLink = RepoLink(revision: Revision, upkeep: nat)

  datatype Error = ApiError(code: string) | InvalidForm | OtherError

  datatype Answer<T> = Ok(value: T) | Threw(error: Error)

  const CONCURRENT_MODIFICATION := "CONCURRENT_MODIFICATION"
  const REPO_LINK_NOT_FOUND := "REPO_LINK_NOT_FOUND"

  datatype Outcome = Updated(link: RepoLink) | ChangedMeanwhile(latest: Option<RepoLink>)

  /** What became of a call: it went through, never reached the service, or was answered in vain. */
  datatype Delivery = Delivered | RequestLost(error: Error) | ReplyLost(error: Error)

  /** With the settings changed so, one version on. */
  function Changed(revision: Revision, change: Change): Revision {
    revision.(settings := Apply(revision.settings, change), version := revision.version + 1)
  }

  /**
   The server's step: a link not active, or a stale version, is refused; a change of nothing is answered with the link
   as it is; any other bumps the version.
   */
  function Patched(link: Option<RepoLink>, change: Change, version: nat): (Option<RepoLink>, Answer<RepoLink>) {
    if link.None? || !link.value.revision.active then (link, Threw(ApiError(REPO_LINK_NOT_FOUND)))
    else if link.value.revision.version != version then (link, Threw(ApiError(CONCURRENT_MODIFICATION)))
    else if Apply(link.value.revision.settings, change) == link.value.revision.settings then (link, Ok(link.value))
    else
      var next := link.value.(revision := Changed(link.value.revision, change));
      (Some(next), Ok(next))
  }

  function Tuned(link: Option<RepoLink>, change: Change, version: nat,
                 delivery: Delivery): (Option<RepoLink>, Answer<RepoLink>) {
    match delivery
    case Delivered => Patched(link, change, version)
    case RequestLost(error) => (link, Threw(error))
    case ReplyLost(error) => (Patched(link, change, version).0, Threw(error))
  }

  function Found(link: Option<RepoLink>, outage: Option<Error>): Answer<Option<RepoLink>> {
    if outage.Some? then Threw(outage.value) else Ok(link)
  }

  class LinkServer {
    var link: Option<RepoLink>

    constructor (link: Option<RepoLink>)
      ensures this.link == link
    {
      this.link := link;
    }

    method Patch(change: Change, version: nat) returns (r: Answer<RepoLink>)
      modifies this
      ensures (link, r) == Patched(old(link), change, version)
    {
      if link.None? || !link.value.revision.active {
        return Threw(ApiError(REPO_LINK_NOT_FOUND));
      }
      if link.value.revision.version != version {
        return Threw(ApiError(CONCURRENT_MODIFICATION));
      }
      if Apply(link.value.revision.settings, change) == link.value.revision.settings {
        return Ok(link.value);
      }
      link := Some(link.value.(revision := Changed(link.value.revision, change)));
      r := Ok(link.value);
    }

    method Tune(change: Change, version: nat, delivery: Delivery) returns (r: Answer<RepoLink>)
      modifies this
      ensures (link, r) == Tuned(old(link), change, version, delivery)
    {
      if delivery.RequestLost? {
        return Threw(delivery.error);
      }
      r := Patch(change, version);
      if delivery.ReplyLost? {
        r := Threw(delivery.error);
      }
    }

    method Find(outage: Option<Error>) returns (r: Answer<Option<RepoLink>>)
      ensures r == Found(link, outage)
    {
      r := if outage.Some? then Threw(outage.value) else Ok(link);
    }
  }

  /** The whole use case, nobody else acting between its two calls. */
  function TuneOutcome(server: Option<RepoLink>, link: RepoLink, form: Settings, delivery: Delivery,
                       findOutage: Option<Error>)
    : (Option<RepoLink>, Answer<Outcome>)
  {
    var next := Parsed(form);
    if next.None? then (server, Threw(InvalidForm))
    else
      var change := BuildSettingsChange(link.revision.settings, next.value);
      if IsNoChange(change) then (server, Ok(Updated(link)))
      else
        var (after, answer) := Tuned(server, change, link.revision.version, delivery);
        match answer
        case Ok(updated) => (after, Ok(Updated(updated)))
        case Threw(error) =>
          if error != ApiError(CONCURRENT_MODIFICATION) then (after, Threw(error))
          else
            (match Found(after, findOutage)
             case Ok(latest) => (after, Ok(ChangedMeanwhile(latest)))
             case Threw(e) => (after, Threw(e)))
  }

  method Tune(server: LinkServer, link: RepoLink, form: Settings, delivery: Delivery, findOutage: Option<Error>)
    returns (r: Answer<Outcome>)
    modifies server
    ensures (server.link, r) == TuneOutcome(old(server.link), link, form, delivery, findOutage)
  {
    var next := Parsed(form);
    if next.None? {
      return Threw(InvalidForm);
    }
    var change := BuildSettingsChange(link.revision.settings, next.value);
    if IsNoChange(change) {
      return Ok(Updated(link));
    }
    var answer := server.Tune(change, link.revision.version, delivery);
    if answer.Ok? {
      return Ok(Updated(answer.value));
    }
    if answer.error != ApiError(CONCURRENT_MODIFICATION) {
      return Threw(answer.error);
    }
    var latest := server.Find(findOutage);
    r := if latest.Ok? then Ok(ChangedMeanwhile(latest.value)) else Threw(latest.error);
  }

  // ----- When each answer is given, whatever the server holds and becomes of the call.

  /** What the form holds, if it can be read, differs from the link it was filled from. */
  predicate Submits(link: RepoLink, next: Option<Settings>) {
    next.Some? && next.value != link.revision.settings
  }

  /** The server has the link, active, at the version the client read. */
  predicate Matches(server: Option<RepoLink>, link: RepoLink) {
    server.Some? && server.value.revision.active && server.value.revision.version == link.revision.version
  }

  /** The call fails with `error`: the server's refusal, or whatever the network made of it. */
  predicate Fails(server: Option<RepoLink>, link: RepoLink, delivery: Delivery, error: Error) {
    match delivery
    case RequestLost(lost) => error == lost
    case ReplyLost(lost) => error == lost
    case Delivered =>
      if server.None? || !server.value.revision.active then error == ApiError("REPO_LINK_NOT_FOUND")
      else server.value.revision.version != link.revision.version && error == ApiError("CONCURRENT_MODIFICATION")
  }

  /** What the server holds afterwards: the merge, one version on, if a change reached a matching link. */
  function ServerAfter(server: Option<RepoLink>, link: RepoLink, next: Option<Settings>,
                       delivery: Delivery): Option<RepoLink> {
    if !Submits(link, next) || delivery.RequestLost? || !Matches(server, link) then server
    else
      var RepoLink(Revision(theirs, _, version, activity), upkeep) := server.value;
      var merged := Merged(theirs, link.revision.settings, next.value);
      if merged == theirs then server else Some(RepoLink(Revision(merged, true, version + 1, activity), upkeep))
  }

  predicate Gives(server: Option<RepoLink>, link: RepoLink, next: Option<Settings>, delivery: Delivery,
                  findOutage: Option<Error>, answer: Answer<Outcome>) {
    var after := ServerAfter(server, link, next, delivery);
    match answer
    case Ok(Updated(updated)) =>
      || (next == Some(link.revision.settings) && updated == link)
      || (Submits(link, next) && delivery.Delivered? && Matches(server, link) && after == Some(updated))
    case Ok(ChangedMeanwhile(latest)) =>
      && Submits(link, next) && Fails(server, link, delivery, ApiError("CONCURRENT_MODIFICATION"))
      && findOutage.None? && latest == after
    case Threw(error) =>
      || (next.None? && error == InvalidForm)
      || (Submits(link, next) && Fails(server, link, delivery, error) && error != ApiError("CONCURRENT_MODIFICATION"))
      || (Submits(link, next) && Fails(server, link, delivery, ApiError("CONCURRENT_MODIFICATION"))
          && findOutage == Some(error))
  }

  lemma PatchMerges(server: Option<RepoLink>, link: RepoLink, next: Option<Settings>)
    requires Submits(link, next)
    ensures var change := BuildSettingsChange(link.revision.settings, next.value);
            var (after, answer) := Patched(server, change, link.revision.version);
            && after == ServerAfter(server, link, next, Delivered)
            && (answer.Ok? ==> Matches(server, link) && after == Some(answer.value))
            && (answer.Threw? ==> !Matches(server, link) && Fails(server, link, Delivered, answer.error))
  {
    if Matches(server, link) {
      ApplyMerges(server.value.revision.settings, link.revision.settings, next.value);
    }
  }

  lemma TunedFails(server: Option<RepoLink>, link: RepoLink, next: Option<Settings>, delivery: Delivery)
    requires Submits(link, next)
    ensures var change := BuildSettingsChange(link.revision.settings, next.value);
            var (after, answer) := Tuned(server, change, link.revision.version, delivery);
            && after == ServerAfter(server, link, next, delivery)
            && (answer.Ok? ==> delivery.Delivered? && Matches(server, link) && after == Some(answer.value))
            && (answer.Threw? ==> Fails(server, link, delivery, answer.error))
  {
    PatchMerges(server, link, next);
  }

  lemma OneAnswer(server: Option<RepoLink>, link: RepoLink, next: Option<Settings>, delivery: Delivery,
                  findOutage: Option<Error>, a: Answer<Outcome>, b: Answer<Outcome>)
    requires Gives(server, link, next, delivery, findOutage, a) && Gives(server, link, next, delivery, findOutage, b)
    ensures a == b
  {
  }

  /**
   Whatever the server holds, the client read and becomes of the two calls: what the server holds afterwards, and an
   answer is given if and only if it is the one called for. So a change that meets another version leaves the server
   as it was and is answered with the link as the server has it; only a lost call's own error can look the same.
   */
  lemma AnswersExactly(server: Option<RepoLink>, link: RepoLink, form: Settings, delivery: Delivery,
                       findOutage: Option<Error>, answer: Answer<Outcome>)
    ensures var (after, r) := TuneOutcome(server, link, form, delivery, findOutage);
            && after == ServerAfter(server, link, Parsed(form), delivery)
            && (r == answer <==> Gives(server, link, Parsed(form), delivery, findOutage, answer))
  {
    var next := Parsed(form);
    var r := TuneOutcome(server, link, form, delivery, findOutage).1;
    if next.Some? {
      ChangeLeadsToNext(link.revision.settings, next.value);
    }
    if Submits(link, next) {
      TunedFails(server, link, next, delivery);
    }
    assert Gives(server, link, next, delivery, findOutage, r);
    if Gives(server, link, next, delivery, findOutage, answer) {
      OneAnswer(server, link, next, delivery, findOutage, r, answer);
    }
  }

  // ----- Any number of clients.

  type Client = nat

  /** What changed the settings: an accepted change, or linking again over a disconnected link. */
  datatype Edit =
    | Accepted(client: Client, read: Revision, change: Change, submitted: Settings)
    | Relinked(read: Revision, submitted: Settings, activity: nat)
  {
    /** The revision it makes of the one it was made on. */
    function Made(): Revision {
      match this
      case Accepted(_, _, _, _) => read.(settings := submitted, version := read.version + 1)
      case Relinked(_, _, _) => Revision(submitted, true, read.version + 1, activity)
    }
  }

  /**
   The app's link, every revision its row has been through, what each client last read, those of them that read an
   earlier row, and the edits of this one.
   */
  datatype World = World(
    link: Option<RepoLink>, history: seq<Revision>, seen: map<Client, RepoLink>, stale: set<Client>, log: seq<Edit>)

  /** Linking changes nothing while the link is active; a row long disconnected is deleted. */
  datatype Step =
    | Reads(client: Client)
    | Tunes(client: Client, form: Settings, delivery: Delivery)
    | ServiceActs(activity: nat)
    | Upkeeps(upkeep: nat)
    | Disconnects
    | Links(settings: Settings, activity: nat)
    | Forgets

  predicate Enabled(world: World, step: Step) {
    match step
    case Tunes(client, _, _) => client in world.seen
    case Forgets => world.link.Some? && !world.link.value.revision.active
    case _ => true
  }

  function Acted(revision: Revision, activity: nat): Revision {
    revision.(activity := activity, version := revision.version + 1)
  }

  function Disconnected(revision: Revision): Revision {
    revision.(active := false, version := revision.version + 1)
  }

  /** The link as it comes to be, in a row that stays. */
  function Became(world: World, revision: Revision): World
    requires world.link.Some?
  {
    world.(link := Some(world.link.value.(revision := revision)), history := world.history + [revision])
  }

  function HasRead(world: World, client: Client, link: RepoLink): World {
    world.(seen := world.seen[client := link], stale := world.stale - {client})
  }

  /** The use case up to its conflict: finding the latest afterwards is a `Reads` of its own. */
  function Sent(world: World, client: Client, form: Settings, delivery: Delivery): World
    requires client in world.seen
  {
    var read, next := world.seen[client].revision, Parsed(form);
    if next.None? || IsNoChange(BuildSettingsChange(read.settings, next.value)) then world
    else
      var change := BuildSettingsChange(read.settings, next.value);
      var (after, answer) := Tuned(world.link, change, read.version, delivery);
      var made :=
        if after == world.link then world
        else Became(world, after.value.revision).(log := world.log + [Accepted(client, read, change, next.value)]);
      if answer.Ok? then HasRead(made, client, answer.value) else made
  }

  /** The change was accepted, and was one. */
  predicate Accepts(world: World, client: Client, form: Settings, delivery: Delivery) {
    client in world.seen && Sent(world, client, form, delivery).log != world.log
  }

  function Linked(world: World, settings: Settings, activity: nat): World {
    match world.link
    case None =>
      // A row inserted counts its versions from zero.
      var first := Revision(settings, true, 0, activity);
      World(Some(RepoLink(first, 0)), [first], world.seen, world.seen.Keys, [])
    case Some(link) =>
      if link.revision.active then world
      else
        var edit := Relinked(link.revision, settings, activity);
        Became(world, edit.Made()).(log := world.log + [edit])
  }

  function Next(world: World, step: Step): World
    requires Enabled(world, step)
  {
    match step
    case Reads(client) => if world.link.None? then world else HasRead(world, client, world.link.value)
    case Tunes(client, form, delivery) => Sent(world, client, form, delivery)
    case ServiceActs(activity) =>
      if world.link.None? then world else Became(world, Acted(world.link.value.revision, activity))
    case Upkeeps(upkeep) =>
      if world.link.None? then world else world.(link := Some(world.link.value.(upkeep := upkeep)))
    case Disconnects =>
      if world.link.None? || !world.link.value.revision.active then world
      else Became(world, Disconnected(world.link.value.revision))
    case Links(settings, activity) => Linked(world, settings, activity)
    case Forgets => world.(link := None)
  }

  /**
   What becomes of a row: upkeep changes nothing a version counts; linking makes a missing or disconnected link active
   with the settings asked for, from version 0 or one on, and leaves an active one; only a disconnected row is deleted.
   */
  lemma RowSteps(world: World, settings: Settings, activity: nat, upkeep: nat)
    ensures var after := Next(world, Links(settings, activity));
            && after.link.Some? && after.link.value.revision.active
            && match world.link
               case None => after.link.value == RepoLink(Revision(settings, true, 0, activity), 0) && after.log == []
               case Some(link) =>
                 if link.revision.active then after == world
                 else after.link.value == RepoLink(Revision(settings, true, link.revision.version + 1, activity),
                                                   link.upkeep)
    ensures var after := Next(world, Upkeeps(upkeep));
            && after == world.(link := after.link)
            && (world.link.Some? ==> after.link == Some(RepoLink(world.link.value.revision, upkeep)))
    ensures Enabled(world, Forgets) <==> world.link.Some? && !world.link.value.revision.active
    ensures Enabled(world, Forgets) ==> Next(world, Forgets) == world.(link := None)
  {
  }

  ghost predicate Runs(world: World, steps: seq<Step>, final: World)
    decreases |steps|
  {
    if steps == [] then world == final
    else Enabled(world, steps[0]) && Runs(Next(world, steps[0]), steps[1..], final)
  }

  /** Nobody tunes what they read of a row since deleted. */
  predicate Rereads(world: World, step: Step) {
    step.Tunes? ==> step.client !in world.stale
  }

  predicate RereadingRun(world: World, steps: seq<Step>)
    decreases |steps|
  {
    steps == []
    || (Enabled(world, steps[0]) && Rereads(world, steps[0]) && RereadingRun(Next(world, steps[0]), steps[1..]))
  }

  function Start(link: RepoLink): World { World(Some(link), [link.revision], map[], {}, []) }

  /** The settings the edits make of the first, change by change. */
  function Fold(settings: Settings, log: seq<Edit>): Settings {
    if log == [] then settings
    else
      match log[|log| - 1]
      case Accepted(_, _, change, _) => Apply(Fold(settings, log[..|log| - 1]), change)
      case Relinked(_, submitted, _) => submitted
  }

  /** What the next edit must have been made on: the settings the last one submitted, or the first. */
  function LastSubmitted(first: Settings, log: seq<Edit>): Settings {
    if log == [] then first else log[|log| - 1].submitted
  }

  /** Versions count up by one, and what was read at a version of this row is the link as it was then. */
  ghost predicate HistoryInv(world: World) {
    && world.history != []
    && (forall i :: 0 <= i < |world.history| ==> world.history[i].version == world.history[0].version + i)
    && (world.link.Some? ==> world.link.value.revision == world.history[|world.history| - 1])
    && forall c :: c in world.seen && c !in world.stale ==> world.seen[c].revision in world.history
  }

  /** The edit was made on the revision that had been read, and made it what was submitted. */
  ghost predicate MadeOnRead(history: seq<Revision>, edit: Edit)
    requires history != []
  {
    var h := edit.read.version - history[0].version;
    0 <= h && h + 1 < |history| && history[h] == edit.read && history[h + 1] == edit.Made()
  }

  /** Each edit was made on what was read, changes on active links only, and later ones on later states. */
  ghost predicate Provenance(history: seq<Revision>, log: seq<Edit>)
    requires history != []
  {
    && (forall i :: 0 <= i < |log| ==> MadeOnRead(history, log[i]) && (log[i].Accepted? <==> log[i].read.active))
    && forall i, j :: 0 <= i < j < |log| ==> log[i].read.version < log[j].read.version
  }

  predicate SaysWhatItSubmitted(edit: Edit) {
    edit.Accepted? ==> Apply(edit.read.settings, edit.change) == edit.submitted
  }

  /** Each edit was made on the settings of the edit before it. */
  ghost predicate Follows(first: Settings, log: seq<Edit>) {
    forall i :: 0 <= i < |log| ==>
      log[i].read.settings == LastSubmitted(first, log[..i]) && SaysWhatItSubmitted(log[i])
  }

  ghost predicate LogInv(world: World)
    requires world.history != []
  {
    var first := world.history[0].settings;
    && Follows(first, world.log)
    && world.history[|world.history| - 1].settings == LastSubmitted(first, world.log) == Fold(first, world.log)
  }

  ghost predicate Inv(world: World) {
    HistoryInv(world) && LogInv(world) && Provenance(world.history, world.log)
  }

  /** A client whose version is the link's has read that revision of it. */
  lemma SameVersionSameRevision(world: World, client: Client)
    requires HistoryInv(world) && client in world.seen && client !in world.stale && world.link.Some?
    requires world.seen[client].revision.version == world.link.value.revision.version
    ensures world.seen[client].revision == world.link.value.revision
  {
    var i :| 0 <= i < |world.history| && world.history[i] == world.seen[client].revision;
  }

  /** What a change does when it is accepted, whatever its client had read. */
  lemma SentChanges(world: World, client: Client, form: Settings, delivery: Delivery)
    requires Accepts(world, client, form, delivery)
    ensures !delivery.RequestLost? && Parsed(form).Some? && world.link.Some? && world.link.value.revision.active
    ensures var after, read, link := Sent(world, client, form, delivery), world.seen[client].revision, world.link.value;
            var change := BuildSettingsChange(read.settings, Parsed(form).value);
            var next := Changed(link.revision, change);
            && read.version == link.revision.version && next.settings != link.revision.settings
            && after.link == Some(link.(revision := next)) && after.history == world.history + [next]
            && after.log == world.log + [Accepted(client, read, change, Parsed(form).value)]
            && after.seen == (if delivery.Delivered? then world.seen[client := after.link.value] else world.seen)
            && after.stale == (if delivery.Delivered? then world.stale - {client} else world.stale)
  {
  }

  /** One that is not only has its client read the link there is, if anything. */
  lemma SentReads(world: World, client: Client, form: Settings, delivery: Delivery)
    requires client in world.seen && !Accepts(world, client, form, delivery)
    ensures var after := Sent(world, client, form, delivery);
            after == world || (world.link.Some? && after == HasRead(world, client, world.link.value))
  {
  }

  /**
   A change that was sent and accepted, its reply lost or not, leaves exactly the settings its client submitted, one
   version on.
   */
  lemma AcceptedAsSubmitted(world: World, client: Client, form: Settings, delivery: Delivery)
    requires HistoryInv(world) && client !in world.stale && Accepts(world, client, form, delivery)
    ensures var after, read := Sent(world, client, form, delivery), world.seen[client].revision;
            && Parsed(form).Some? && world.link.Some? && world.link.value.revision == read && read.active
            && !delivery.RequestLost?
            && var edit := Accepted(client, read, BuildSettingsChange(read.settings, Parsed(form).value),
                                    Parsed(form).value);
            && after.link == Some(world.link.value.(revision := edit.Made())) && after.log == world.log + [edit]
            && after.history == world.history + [edit.Made()] && SaysWhatItSubmitted(edit)
            && after.seen == (if delivery.Delivered? then world.seen[client := after.link.value] else world.seen)
            && after.stale == (if delivery.Delivered? then world.stale - {client} else world.stale)
  {
    SentChanges(world, client, form, delivery);
    SameVersionSameRevision(world, client);
    ChangeLeadsToNext(world.seen[client].revision.settings, Parsed(form).value);
  }

  lemma ProvenanceKept(history: seq<Revision>, log: seq<Edit>, next: Revision)
    requires history != [] && Provenance(history, log)
    ensures Provenance(history + [next], log)
  {
    forall i | 0 <= i < |log|
      ensures MadeOnRead(history + [next], log[i])
    {
      assert MadeOnRead(history, log[i]);
    }
  }

  /** An edit made on the newest state adds the state it leads to. */
  lemma ProvenanceGrows(history: seq<Revision>, log: seq<Edit>, edit: Edit)
    requires history != [] && Provenance(history, log) && history[|history| - 1] == edit.read
    requires forall i :: 0 <= i < |history| ==> history[i].version == history[0].version + i
    requires edit.Accepted? <==> edit.read.active
    ensures Provenance(history + [edit.Made()], log + [edit])
  {
    ProvenanceKept(history, log, edit.Made());
    assert MadeOnRead(history + [edit.Made()], edit);
    forall i | 0 <= i < |log|
      ensures log[i].read.version < edit.read.version
    {
      assert MadeOnRead(history, log[i]);
    }
  }

  lemma LogGrows(first: Settings, log: seq<Edit>, edit: Edit)
    requires edit.read.settings == LastSubmitted(first, log) == Fold(first, log)
    requires SaysWhatItSubmitted(edit) && Follows(first, log)
    ensures Follows(first, log + [edit])
    ensures edit.submitted == LastSubmitted(first, log + [edit]) == Fold(first, log + [edit])
  {
    var grown := log + [edit];
    assert grown[..|grown| - 1] == log;
    forall i | 0 <= i < |grown|
      ensures grown[i].read.settings == LastSubmitted(first, grown[..i]) && SaysWhatItSubmitted(grown[i])
    {
      if i < |log| {
        assert grown[..i] == log[..i];
      }
    }
  }

  /** An edit of the link there is keeps the invariant, whatever the client it came from then has read. */
  lemma EditKeepsInv(world: World, edit: Edit, after: World)
    requires Inv(world) && world.link.Some? && world.link.value.revision == edit.read && SaysWhatItSubmitted(edit)
    requires edit.Accepted? <==> edit.read.active
    requires after.link.Some? && after.link.value.revision == edit.Made()
    requires after.history == world.history + [edit.Made()] && after.log == world.log + [edit]
    requires forall c :: c in after.seen && c !in after.stale ==> after.seen[c].revision in after.history
    ensures Inv(after) && after.history[0] == world.history[0]
  {
    LogGrows(world.history[0].settings, world.log, edit);
    ProvenanceGrows(world.history, world.log, edit);
  }

  lemma TuneKeepsInv(world: World, client: Client, form: Settings, delivery: Delivery)
    requires Inv(world) && client !in world.stale && Accepts(world, client, form, delivery)
    ensures Inv(Sent(world, client, form, delivery))
  {
    var after, read := Sent(world, client, form, delivery), world.seen[client].revision;
    AcceptedAsSubmitted(world, client, form, delivery);
    var change := BuildSettingsChange(read.settings, Parsed(form).value);
    EditKeepsInv(world, Accepted(client, read, change, Parsed(form).value), after);
  }

  /** A change of anything but the settings keeps it too. */
  lemma BecameKeepsInv(world: World, revision: Revision)
    requires Inv(world) && world.link.Some? && revision.settings == world.link.value.revision.settings
    requires revision.version == world.link.value.revision.version + 1
    ensures Inv(Became(world, revision))
  {
    ProvenanceKept(world.history, world.log, revision);
  }

  lemma HasReadKeepsInv(world: World, client: Client)
    requires Inv(world) && world.link.Some?
    ensures Inv(HasRead(world, client, world.link.value))
  {
    var after := HasRead(world, client, world.link.value);
    assert HistoryInv(after);
  }

  lemma ForgetsKeepsInv(world: World)
    requires Inv(world) && Enabled(world, Forgets)
    ensures Inv(Next(world, Forgets))
  {
    var after := Next(world, Forgets);
    assert HistoryInv(after);
  }

  lemma UpkeepsKeepsInv(world: World, upkeep: nat)
    requires Inv(world)
    ensures Inv(Next(world, Upkeeps(upkeep)))
  {
    var after := Next(world, Upkeeps(upkeep));
    assert HistoryInv(after);
  }

  lemma ActsKeepInv(world: World, activity: nat)
    requires Inv(world)
    ensures Inv(Next(world, ServiceActs(activity)))
  {
    if world.link.Some? {
      var acted := Acted(world.link.value.revision, activity);
      BecameKeepsInv(world, acted);
      assert Next(world, ServiceActs(activity)) == Became(world, acted);
    } else {
      assert Next(world, ServiceActs(activity)) == world;
    }
  }

  lemma DisconnectsKeepsInv(world: World)
    requires Inv(world)
    ensures Inv(Next(world, Disconnects))
  {
    if world.link.Some? && world.link.value.revision.active {
      var disconnected := Disconnected(world.link.value.revision);
      BecameKeepsInv(world, disconnected);
      assert Next(world, Disconnects) == Became(world, disconnected);
    } else {
      assert Next(world, Disconnects) == world;
    }
  }

  lemma LinksKeepsInv(world: World, settings: Settings, activity: nat)
    requires Inv(world)
    ensures Inv(Linked(world, settings, activity))
  {
    if world.link.Some? && !world.link.value.revision.active {
      var edit := Relinked(world.link.value.revision, settings, activity);
      EditKeepsInv(world, edit, Linked(world, settings, activity));
    }
  }

  lemma SentKeepsInv(world: World, client: Client, form: Settings, delivery: Delivery)
    requires Inv(world) && client in world.seen && client !in world.stale
    ensures Inv(Sent(world, client, form, delivery))
  {
    if Accepts(world, client, form, delivery) {
      TuneKeepsInv(world, client, form, delivery);
    } else {
      SentReads(world, client, form, delivery);
      if world.link.Some? {
        HasReadKeepsInv(world, client);
      }
    }
  }

  lemma StepKeepsInv(world: World, step: Step)
    requires Inv(world) && Enabled(world, step) && Rereads(world, step)
    ensures Inv(Next(world, step))
  {
    match step
    case Reads(client) =>
      if world.link.Some? {
        HasReadKeepsInv(world, client);
      }
    case Tunes(client, form, delivery) => SentKeepsInv(world, client, form, delivery);
    case ServiceActs(activity) => ActsKeepInv(world, activity);
    case Upkeeps(upkeep) => UpkeepsKeepsInv(world, upkeep);
    case Disconnects => DisconnectsKeepsInv(world);
    case Links(settings, activity) => LinksKeepsInv(world, settings, activity);
    case Forgets => ForgetsKeepsInv(world);
  }

  lemma {:induction false} RunKeepsInv(world: World, steps: seq<Step>, final: World)
    requires Inv(world) && Runs(world, steps, final) && RereadingRun(world, steps)
    ensures Inv(final)
    decreases |steps|
  {
    if steps != [] {
      StepKeepsInv(world, steps[0]);
      RunKeepsInv(Next(world, steps[0]), steps[1..], final);
    }
  }

  /**
   Over every run in which nobody tunes what they read of a row since deleted, replies lost or not: each edit was made
   on the very revision of the link that had been read, the settings then being those the edit before it left; and the
   settings are in the end those of the last edit, which is the fold of all changes.
   */
  lemma NoLostUpdates(link: RepoLink, steps: seq<Step>, final: World)
    requires Runs(Start(link), steps, final) && RereadingRun(Start(link), steps)
    ensures final.history != [] && Provenance(final.history, final.log)
    ensures var first := final.history[0].settings;
            && (forall i :: 0 <= i < |final.log| ==>
                  final.log[i].read.settings == (if i == 0 then first else final.log[i - 1].submitted))
            && (final.link.Some? ==>
                  && final.link.value.revision == final.history[|final.history| - 1]
                  && final.link.value.revision.settings == LastSubmitted(first, final.log) == Fold(first, final.log))
  {
    RunKeepsInv(Start(link), steps, final);
    var first := final.history[0].settings;
    forall i | 0 <= i < |final.log|
      ensures final.log[i].read.settings == (if i == 0 then first else final.log[i - 1].submitted)
    {
      assert final.log[i].read.settings == LastSubmitted(first, final.log[..i]);
    }
  }

  /** While the row stays nobody's reading is of another, and its history goes back to the first link. */
  lemma {:induction false} RowStays(world: World, steps: seq<Step>, final: World)
    requires Runs(world, steps, final) && world.stale == {} && world.link.Some? && world.history != []
    requires forall step :: step in steps ==> step != Forgets
    ensures RereadingRun(world, steps) && final.history != [] && final.history[0] == world.history[0]
    decreases |steps|
  {
    if steps != [] {
      assert steps[0] in steps && forall step :: step in steps[1..] ==> step in steps;
      RowStays(Next(world, steps[0]), steps[1..], final);
    }
  }

  // ----- A row that is deleted.

  /** A change accepted for its version alone. */
  lemma MadeOnNewest(history: seq<Revision>, revision: Revision, edit: Edit, next: Revision)
    requires history != [] && history[|history| - 1] == revision && edit.Accepted?
    requires revision.version == history[0].version + |history| - 1 == edit.read.version
    requires revision == edit.read ==> next == edit.Made()
    ensures MadeOnRead(history + [next], edit) <==> revision == edit.read
  {
    var longer := history + [next];
    assert longer[0] == history[0] && longer[|history| - 1] == revision && longer[|history|] == next;
  }

  /**
   Exactly when an accepted change was made on what its client had read: always, of a client that has read the row
   there is; of one that read an earlier row, when that happens to have been the same.
   */
  lemma MadeOnReadExactly(world: World, client: Client, form: Settings, delivery: Delivery)
    requires HistoryInv(world) && Accepts(world, client, form, delivery)
    ensures var after := Sent(world, client, form, delivery);
            && world.link.Some? && after.history != [] && |after.log| == |world.log| + 1
            && (MadeOnRead(after.history, after.log[|world.log|])
                <==> client !in world.stale || world.seen[client].revision == world.link.value.revision)
  {
    var read, next := world.seen[client].revision, Parsed(form).value;
    var change := BuildSettingsChange(read.settings, next);
    SentChanges(world, client, form, delivery);
    ChangeLeadsToNext(read.settings, next);
    if client !in world.stale {
      SameVersionSameRevision(world, client);
    }
    var revision := world.link.value.revision;
    MadeOnNewest(world.history, revision, Accepted(client, read, change, next), Changed(revision, change));
  }

  /** A version that matches is all it takes, whatever was read. */
  lemma VersionAccepts(world: World, client: Client, form: Settings)
    requires client in world.seen && Parsed(form).Some? && world.link.Some? && world.link.value.revision.active
    requires world.seen[client].revision.version == world.link.value.revision.version
    requires var change := BuildSettingsChange(world.seen[client].revision.settings, Parsed(form).value);
             var settings := world.link.value.revision.settings;
             Apply(settings, change) != settings
    ensures var read, revision := world.seen[client].revision, world.link.value.revision;
            var change := BuildSettingsChange(read.settings, Parsed(form).value);
            var after := Sent(world, client, form, Delivered);
            && after.link.Some? && after.link.value.revision == Changed(revision, change)
            && after.history == world.history + [Changed(revision, change)]
            && after.log == world.log + [Accepted(client, read, change, Parsed(form).value)]
  {
  }

  function Overwriting(client: Client, form: Settings, settings: Settings, activity: nat): seq<Step> {
    [Reads(client)] + ([Disconnects] + ([Forgets] + ([Links(settings, activity)]
    + ([Tunes(client, form, Delivered)] + []))))
  }

  lemma RunsCons(world: World, step: Step, rest: seq<Step>, final: World)
    requires Enabled(world, step) && Runs(Next(world, step), rest, final)
    ensures Runs(world, [step] + rest, final)
  {
    assert ([step] + rest)[1..] == rest;
  }

  /**
   Rereading is needed: versions start over with a new row, so a client that read version 0 of the deleted one changes
   a link it never read, and leaves of it whatever it does not send.
   */
  lemma ForgottenVersionsRepeat(link: RepoLink, client: Client, form: Settings, settings: Settings, activity: nat)
    returns (final: World)
    requires link.revision.active && link.revision.version == 0
    requires link.revision != Revision(settings, true, 0, activity)
    requires Parsed(form).Some?
    requires Apply(settings, BuildSettingsChange(link.revision.settings, Parsed(form).value)) != settings
    ensures Runs(Start(link), Overwriting(client, form, settings, activity), final)
    ensures final.link.Some? && final.history != [] && |final.log| == 1 && !MadeOnRead(final.history, final.log[0])
    ensures final.link.value.revision.settings
            == Apply(settings, BuildSettingsChange(link.revision.settings, Parsed(form).value))
  {
    var w1 := Next(Start(link), Reads(client));
    var w2 := Next(w1, Disconnects);
    var w3 := Next(w2, Forgets);
    var w4 := Next(w3, Links(settings, activity));
    VersionAccepts(w4, client, form);
    final := Next(w4, Tunes(client, form, Delivered));
    var tunes := [Tunes(client, form, Delivered)] + [];
    var links := [Links(settings, activity)] + tunes;
    RunsCons(w4, Tunes(client, form, Delivered), [], final);
    RunsCons(w3, Links(settings, activity), tunes, final);
    RunsCons(w2, Forgets, links, final);
    RunsCons(w1, Disconnects, [Forgets] + links, final);
    RunsCons(Start(link), Reads(client), [Disconnects] + ([Forgets] + links), final);
  }

  /**
   What the use case answers as updated holds the settings submitted, of a client that has read the row there is; what
   it did not send may be stale.
   */
  lemma UpdatedHoldsSubmitted(world: World, client: Client, form: Settings, delivery: Delivery,
                              findOutage: Option<Error>)
    requires Inv(world) && client in world.seen && client !in world.stale
    ensures var (after, r) := TuneOutcome(world.link, world.seen[client], form, delivery, findOutage);
            after == Sent(world, client, form, delivery).link
            && (r.Ok? && r.value.Updated? ==>
                  Parsed(form).Some? && r.value.link.revision.settings == Parsed(form).value
                  && (Parsed(form).value != world.seen[client].revision.settings ==> after == Some(r.value.link))
                  && (Parsed(form).value == world.seen[client].revision.settings ==>
                        after == world.link && r.value.link == world.seen[client]))
  {
    var read := world.seen[client].revision;
    if Parsed(form).Some? {
      ChangeLeadsToNext(read.settings, Parsed(form).value);
    }
    if world.link.Some? && read.version == world.link.value.revision.version {
      SameVersionSameRevision(world, client);
    }
  }
}
