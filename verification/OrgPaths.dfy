/** Paths of an organization's pages (web/src/modules/organizations/domain/org-paths.ts). */
module OrgPaths {
  import opened Options
  import opened JsStrings
  import opened UriComponents

  datatype OrgSection = Apps | Members | Teams | GitHub | Settings

  const SLASH: Unit := 0x2F
  /** `/orgs/` */
  const ROOT: JsString := [0x2F, 0x6F, 0x72, 0x67, 0x73, 0x2F]

  function SectionName(section: OrgSection): JsString {
    match section
    case Apps => [0x61, 0x70, 0x70, 0x73]
    case Members => [0x6D, 0x65, 0x6D, 0x62, 0x65, 0x72, 0x73]
    case Teams => [0x74, 0x65, 0x61, 0x6D, 0x73]
    case GitHub => [0x67, 0x69, 0x74, 0x68, 0x75, 0x62]
    case Settings => [0x73, 0x65, 0x74, 0x74, 0x69, 0x6E, 0x67, 0x73]
  }

  /** The texts, character by character. */
  lemma NamesRead()
    ensures ROOT == Units("/orgs/")
    ensures SectionName(Apps) == Units("apps") && SectionName(Members) == Units("members")
    ensures SectionName(Teams) == Units("teams") && SectionName(GitHub) == Units("github")
    ensures SectionName(Settings) == Units("settings")
  {
  }

  /** `isOrgSection` on a captured text. */
  function SectionNamed(name: JsString): Option<OrgSection> {
    if name == SectionName(Apps) then Some(Apps)
    else if name == SectionName(Members) then Some(Members)
    else if name == SectionName(Teams) then Some(Teams)
    else if name == SectionName(GitHub) then Some(GitHub)
    else if name == SectionName(Settings) then Some(Settings)
    else None
  }

  /** Fails where `encodeURIComponent` throws. */
  function OrganizationPath(orgId: JsString, section: Option<OrgSection>): Option<JsString> {
    match EncodeComponent(orgId)
    case None => None
    case Some(id) => Some(ROOT + id + SectionTail(section))
  }

  function SectionTail(section: Option<OrgSection>): JsString {
    match section
    case None => []
    case Some(named) => [SLASH] + SectionName(named)
  }

  /** What ends a path segment for the capture `[^/?#]+`. */
  predicate EndsSegment(u: int) { u == SLASH || u == 0x3F || u == 0x23 }

  /** As much as `[^/]+` takes. */
  function UpToSlash(s: JsString): (run: JsString)
    ensures run <= s && SLASH !in run
    ensures |run| < |s| ==> s[|run|] == SLASH
  {
    if s == [] || s[0] == SLASH then [] else [s[0]] + UpToSlash(s[1..])
  }

  /** As much as `[^/?#]+` takes. */
  function SegmentStart(s: JsString): (run: JsString)
    ensures run <= s && forall k :: 0 <= k < |run| ==> !EndsSegment(run[k])
    ensures |run| < |s| ==> EndsSegment(s[|run|])
  {
    if s == [] || EndsSegment(s[0]) then [] else [s[0]] + SegmentStart(s[1..])
  }

  /**
   The capture of `/^\/orgs\/[^/]+(?:\/([^/?#]+))?/`. The first run takes all it can, and the optional group
   never makes it give any back.
   */
  function Captured(pathname: JsString): Option<JsString> {
    if !StartsWith(pathname, ROOT) then None
    else
      var rest := pathname[|ROOT|..];
      var id := UpToSlash(rest);
      if id == [] || |id| == |rest| then None
      else
        var name := SegmentStart(rest[|id| + 1..]);
        if name == [] then None else Some(name)
  }

  function SectionOf(pathname: JsString): Option<OrgSection> {
    match Captured(pathname)
    case None => None
    case Some(name) => SectionNamed(name)
  }

  function SwitchOrganizationPath(pathname: JsString, orgId: JsString): Option<JsString> {
    OrganizationPath(orgId, SectionOf(pathname))
  }

  // ----- What a section is, without the matching.

  lemma NamesAgree(section: OrgSection, name: JsString)
    ensures SectionNamed(name) == Some(section) <==> name == SectionName(section)
  {
  }

  lemma NameIsSegment(section: OrgSection)
    ensures SectionName(section) != []
    ensures forall k :: 0 <= k < |SectionName(section)| ==> !EndsSegment(SectionName(section)[k])
  {
  }

  lemma {:induction false} RunUpToSlash(id: JsString, tail: JsString)
    requires SLASH !in id && (tail == [] || tail[0] == SLASH)
    ensures UpToSlash(id + tail) == id
  {
    if id == [] {
      assert id + tail == tail;
    } else {
      assert (id + tail)[1..] == id[1..] + tail;
      RunUpToSlash(id[1..], tail);
    }
  }

  lemma {:induction false} RunOfSegment(name: JsString, tail: JsString)
    requires (forall k :: 0 <= k < |name| ==> !EndsSegment(name[k])) && (tail == [] || EndsSegment(tail[0]))
    ensures SegmentStart(name + tail) == name
  {
    if name == [] {
      assert name + tail == tail;
    } else {
      assert (name + tail)[1..] == name[1..] + tail;
      RunOfSegment(name[1..], tail);
    }
  }

  /** A path under an organization, at a section, however it goes on after the section's name. */
  ghost predicate IsSectionPath(pathname: JsString, id: JsString, section: OrgSection, tail: JsString) {
    && pathname == ROOT + id + [SLASH] + SectionName(section) + tail
    && id != [] && SLASH !in id && (tail == [] || EndsSegment(tail[0]))
  }

  lemma CutAt(s: JsString, front: JsString)
    requires front <= s
    ensures s == front + s[|front|..]
  {
  }

  lemma Regroup(root: JsString, id: JsString, slashed: JsString, name: JsString, tail: JsString)
    requires slashed != [] && slashed[1..] == name + tail
    ensures root + (id + slashed) == root + id + [slashed[0]] + name + tail
  {
    assert slashed == [slashed[0]] + slashed[1..];
  }

  lemma CapturedAfter(id: JsString, after: JsString)
    requires id != [] && SLASH !in id && after != [] && after[0] == SLASH && SegmentStart(after[1..]) != []
    ensures Captured(ROOT + (id + after)) == Some(SegmentStart(after[1..]))
  {
    var pathname := ROOT + (id + after);
    assert pathname[0..|ROOT|] == ROOT;
    assert pathname[|ROOT|..] == id + after;
    RunUpToSlash(id, after);
    assert (id + after)[|id| + 1..] == after[1..];
  }

  lemma CapturedSegment(id: JsString, name: JsString, tail: JsString)
    requires id != [] && SLASH !in id && name != [] && (forall k :: 0 <= k < |name| ==> !EndsSegment(name[k]))
    requires tail == [] || EndsSegment(tail[0])
    ensures Captured(ROOT + id + [SLASH] + name + tail) == Some(name)
  {
    var after := [SLASH] + (name + tail);
    assert after[1..] == name + tail;
    RunOfSegment(name, tail);
    CapturedAfter(id, after);
    Regroup(ROOT, id, after, name, tail);
  }

  lemma SectionPathRead(pathname: JsString, id: JsString, section: OrgSection, tail: JsString)
    requires IsSectionPath(pathname, id, section, tail)
    ensures SectionOf(pathname) == Some(section)
  {
    NameIsSegment(section);
    CapturedSegment(id, SectionName(section), tail);
    NamesAgree(section, SectionName(section));
  }

  lemma CapturedParts(pathname: JsString) returns (id: JsString, tail: JsString)
    requires Captured(pathname).Some?
    ensures pathname == ROOT + id + [SLASH] + Captured(pathname).value + tail
    ensures id != [] && SLASH !in id && (tail == [] || EndsSegment(tail[0]))
  {
    var rest := pathname[|ROOT|..];
    id := UpToSlash(rest);
    var after := rest[|id| + 1..];
    var name := SegmentStart(after);
    tail := after[|name|..];
    CutAt(pathname, ROOT);
    CutAt(rest, id);
    CutAt(after, name);
    Regroup(ROOT, id, rest[|id|..], name, tail);
  }

  lemma ReadSectionPath(pathname: JsString, section: OrgSection) returns (id: JsString, tail: JsString)
    requires SectionOf(pathname) == Some(section)
    ensures IsSectionPath(pathname, id, section, tail)
  {
    id, tail := CapturedParts(pathname);
    NamesAgree(section, Captured(pathname).value);
  }

  /** A path is in a section exactly when it continues a non-empty organization segment with the section's name. */
  lemma SectionMeaning(pathname: JsString, section: OrgSection)
    ensures SectionOf(pathname) == Some(section)
            <==> exists id: JsString, tail: JsString :: IsSectionPath(pathname, id, section, tail)
  {
    if SectionOf(pathname) == Some(section) {
      var id, tail := ReadSectionPath(pathname, section);
    } else if id: JsString, tail: JsString :| IsSectionPath(pathname, id, section, tail) {
      SectionPathRead(pathname, id, section, tail);
    }
  }

  // ----- The printer and the reader.

  lemma EncodedId(orgId: JsString)
    requires EncodeComponent(orgId).Some?
    ensures SLASH !in EncodeComponent(orgId).value && (EncodeComponent(orgId).value == [] <==> orgId == [])
  {
    EncodedComponent(orgId);
  }

  lemma PathRun(orgId: JsString, section: Option<OrgSection>)
    requires EncodeComponent(orgId).Some?
    ensures var path := OrganizationPath(orgId, section).value;
            StartsWith(path, ROOT) && UpToSlash(path[|ROOT|..]) == EncodeComponent(orgId).value
  {
    EncodedId(orgId);
    RootThenRun(EncodeComponent(orgId).value, SectionTail(section));
  }

  lemma RootThenRun(id: JsString, tail: JsString)
    requires SLASH !in id && (tail == [] || tail[0] == SLASH)
    ensures StartsWith(ROOT + id + tail, ROOT) && UpToSlash((ROOT + id + tail)[|ROOT|..]) == id
  {
    var path := ROOT + (id + tail);
    assert ROOT + id + tail == path;
    assert path[0..|ROOT|] == ROOT && path[|ROOT|..] == id + tail;
    RunUpToSlash(id, tail);
  }

  lemma NamedReadBack(orgId: JsString, section: OrgSection)
    requires EncodeComponent(orgId).Some? && orgId != []
    ensures SectionOf(OrganizationPath(orgId, Some(section)).value) == Some(section)
  {
    EncodedId(orgId);
    var path, name := OrganizationPath(orgId, Some(section)).value, SectionName(section);
    assert path == ROOT + EncodeComponent(orgId).value + [SLASH] + name + [];
    SectionPathRead(path, EncodeComponent(orgId).value, section, []);
  }

  /** The section is read back from a printed path, except that an empty id hides it. */
  lemma SectionReadBack(orgId: JsString, section: Option<OrgSection>)
    requires EncodeComponent(orgId).Some?
    ensures SectionOf(OrganizationPath(orgId, section).value) == if orgId == [] then None else section
  {
    EncodedId(orgId);
    PathRun(orgId, section);
    if orgId != [] && section.Some? {
      NamedReadBack(orgId, section.value);
    }
  }

  /** Different organizations or sections have different paths. */
  lemma PathsDiffer(a: JsString, b: JsString, s: Option<OrgSection>, t: Option<OrgSection>)
    requires EncodeComponent(a).Some? && EncodeComponent(b).Some?
    requires OrganizationPath(a, s) == OrganizationPath(b, t)
    ensures a == b && s == t
  {
    PathRun(a, s);
    PathRun(b, t);
    DecodeEncoded(a);
    DecodeEncoded(b);
    var id := EncodeComponent(a).value;
    var path := OrganizationPath(a, s).value;
    var tail := path[|ROOT + id|..];
    assert tail == SectionTail(s) && tail == SectionTail(t);
    assert s.Some? ==> tail[1..] == SectionName(s.value);
    assert t.Some? ==> tail[1..] == SectionName(t.value);
    if s.Some? && t.Some? {
      NamesAgree(s.value, tail[1..]);
      NamesAgree(t.value, tail[1..]);
    }
  }

  /** Switching keeps the section, and only the last switch counts. */
  lemma SwitchKeepsSection(pathname: JsString, orgId: JsString, next: JsString)
    requires orgId != [] && EncodeComponent(orgId).Some?
    ensures var switched := SwitchOrganizationPath(pathname, orgId).value;
            && SectionOf(switched) == SectionOf(pathname)
            && SwitchOrganizationPath(switched, next) == SwitchOrganizationPath(pathname, next)
  {
    SectionReadBack(orgId, SectionOf(pathname));
  }
}
