/**
 * Terminal-profile identity as session creation resolves it: the explicit
 * arguments, then the calling session's profile (`--match`), then lookups by
 * name or by UUID, then the configured default. The lookups themselves are
 * collaborators and arrive as functions.
 */
module Profiles {
  import opened Optional
  import opened Strings

  /** A profile as the lookups return it (`{"uuid": ..., "name": ...}`). */
  datatype Profile = Profile(uuid: string, name: string)

  /** The pair of `profile_name` and `profile_uuid` a session is created with. */
  datatype Choice = Choice(name: Option<string>, uuid: Option<string>)

  /** The configuration keys consulted when no profile is given. */
  datatype ProfileDefaults = ProfileDefaults(defaultProfile: Option<string>, defaultProfileUuid: Option<string>)

  /** What the real lookups guarantee: a profile found by name has a non-empty
      name and UUID (its name falls back to its UUID), and a profile found by
      UUID carries the UUID asked for and a non-empty name. */
  ghost predicate LookupsWellFormed(byName: string -> Option<Profile>, byUuid: string -> Option<Profile>)
  {
    && (forall n :: byName(n).Some? ==> byName(n).value.name != "" && byName(n).value.uuid != "")
    && (forall u :: byUuid(u).Some? ==> byUuid(u).value.name != "" && byUuid(u).value.uuid == u)
  }

  /** `--match`: fill in what the caller left out from the calling session's
      record, when there is a calling session and its record is not empty. */
  function MatchCurrent(given: Choice, matchCurrent: bool, current: Option<Choice>): (r: Choice)
    ensures Truthy(given.name) ==> r.name == given.name
    ensures Truthy(given.uuid) ==> r.uuid == given.uuid
    ensures !matchCurrent || current.None? ==> r == given
    ensures matchCurrent && current.Some? && !Truthy(given.name) ==> r.name == current.value.name
    ensures matchCurrent && current.Some? && !Truthy(given.uuid) ==> r.uuid == current.value.uuid
  {
    if matchCurrent && current.Some? then
      Choice(Or(given.name, current.value.name), Or(given.uuid, current.value.uuid))
    else given
  }

  /** The three resolution steps of `create_session`, in order. */
  function ResolveProfile(given: Choice, defaults: ProfileDefaults,
                          byName: string -> Option<Profile>, byUuid: string -> Option<Profile>): Choice
  {
    // Only a name: look it up and take the profile's name and UUID.
    var c1 :=
      if Truthy(given.name) && !Truthy(given.uuid) then
        match byName(given.name.value)
        case Some(p) => Choice(Some(p.name), Some(p.uuid))
        case None => given
      else given;
    // Only a UUID: look it up and take the profile's name.
    var c2 :=
      if Truthy(c1.uuid) && !Truthy(c1.name) then
        match byUuid(c1.uuid.value)
        case Some(p) => c1.(name := Some(p.name))
        case None => c1
      else c1;
    // Neither: the configured default UUID, else the configured default name.
    if !Truthy(c2.name) && !Truthy(c2.uuid) then
      if Truthy(defaults.defaultProfileUuid) then
        var u := defaults.defaultProfileUuid;
        match byUuid(u.value)
        case Some(p) => Choice(Some(p.name), u)
        case None => c2.(uuid := u)
      else if Truthy(defaults.defaultProfile) then
        match byName(defaults.defaultProfile.value)
        case Some(p) => Choice(Some(p.name), Some(p.uuid))
        case None => c2
      else c2
    else c2
  }

  /** Both given: nothing is looked up and nothing is replaced. */
  lemma GivenPairIsKept(given: Choice, defaults: ProfileDefaults,
                        byName: string -> Option<Profile>, byUuid: string -> Option<Profile>)
    requires Truthy(given.name) && Truthy(given.uuid)
    ensures ResolveProfile(given, defaults, byName, byUuid) == given
  {
  }

  /** Only a name given: a profile found by that name supplies both fields;
      otherwise the choice is kept as given. */
  lemma NameOnlyIsLookedUp(given: Choice, defaults: ProfileDefaults,
                           byName: string -> Option<Profile>, byUuid: string -> Option<Profile>)
    requires LookupsWellFormed(byName, byUuid)
    requires Truthy(given.name) && !Truthy(given.uuid)
    ensures var r := ResolveProfile(given, defaults, byName, byUuid);
      match byName(given.name.value)
      case Some(p) => r == Choice(Some(p.name), Some(p.uuid))
      case None => r == given
  {
  }

  /** Only a UUID given: the UUID is kept and a profile found by it supplies the name. */
  lemma UuidOnlyIsLookedUp(given: Choice, defaults: ProfileDefaults,
                           byName: string -> Option<Profile>, byUuid: string -> Option<Profile>)
    requires Truthy(given.uuid) && !Truthy(given.name)
    ensures var r := ResolveProfile(given, defaults, byName, byUuid);
      && r.uuid == given.uuid
      && r.name == (match byUuid(given.uuid.value) case Some(p) => Some(p.name) case None => given.name)
  {
  }

  /** The configured defaults are consulted only when the caller (or the
      calling session) supplied no profile at all. */
  lemma DefaultsOnlyWithoutProfile(given: Choice, d1: ProfileDefaults, d2: ProfileDefaults,
                                   byName: string -> Option<Profile>, byUuid: string -> Option<Profile>)
    requires LookupsWellFormed(byName, byUuid)
    requires Truthy(given.name) || Truthy(given.uuid)
    ensures ResolveProfile(given, d1, byName, byUuid) == ResolveProfile(given, d2, byName, byUuid)
  {
    if Truthy(given.name) && !Truthy(given.uuid) {
      match byName(given.name.value)
      case Some(p) => assert p.name != "";
      case None =>
    }
  }

  /** Without a profile, a configured default UUID wins over a configured
      default name, and the UUID is used even when no profile has it. */
  lemma DefaultUuidWins(given: Choice, defaults: ProfileDefaults,
                        byName: string -> Option<Profile>, byUuid: string -> Option<Profile>)
    requires !Truthy(given.name) && !Truthy(given.uuid)
    requires Truthy(defaults.defaultProfileUuid)
    ensures var r := ResolveProfile(given, defaults, byName, byUuid);
      && r.uuid == defaults.defaultProfileUuid
      && r.name == (match byUuid(defaults.defaultProfileUuid.value)
                    case Some(p) => Some(p.name) case None => given.name)
  {
  }

  /** Without a profile and without a default UUID, the default name is used
      only if a profile of that name exists. */
  lemma DefaultNameNeedsProfile(given: Choice, defaults: ProfileDefaults,
                                byName: string -> Option<Profile>, byUuid: string -> Option<Profile>)
    requires !Truthy(given.name) && !Truthy(given.uuid)
    requires !Truthy(defaults.defaultProfileUuid)
    ensures var r := ResolveProfile(given, defaults, byName, byUuid);
      r == (if Truthy(defaults.defaultProfile) && byName(defaults.defaultProfile.value).Some?
            then var p := byName(defaults.defaultProfile.value).value; Choice(Some(p.name), Some(p.uuid))
            else given)
  {
  }

  /** Resolution never loses a profile: if the caller gave one, or the
      configuration names a default UUID, the result identifies a profile. */
  lemma ResolutionKeepsAProfile(given: Choice, defaults: ProfileDefaults,
                                byName: string -> Option<Profile>, byUuid: string -> Option<Profile>)
    requires LookupsWellFormed(byName, byUuid)
    requires Truthy(given.name) || Truthy(given.uuid) || Truthy(defaults.defaultProfileUuid)
    ensures var r := ResolveProfile(given, defaults, byName, byUuid);
      Truthy(r.name) || Truthy(r.uuid)
  {
    if Truthy(given.name) && !Truthy(given.uuid) {
      match byName(given.name.value)
      case Some(p) => assert p.name != "";
      case None =>
    }
  }

  // ---------------------------------------------------------------------------
  // list_profiles: parsing `gsettings get ... list`
  // ---------------------------------------------------------------------------

  /** The output `['uuid1', 'uuid2']`: brackets off, quotes and spaces removed,
      split at commas, empty pieces dropped; anything else gives no profiles. */
  function ParseProfileList(output: string): (uuids: seq<string>)
    ensures forall k :: 0 <= k < |uuids| ==>
      uuids[k] != "" && ',' !in uuids[k] && '\'' !in uuids[k] && ' ' !in uuids[k]
  {
    var t := Strip(output, Whitespace);
    if t != [] && t[0] == '[' && t[|t| - 1] == ']' then
      var cleaned := RemoveChars(t[1..|t| - 1], {'\'', ' '});
      var pieces := Split(cleaned, ',');
      SplitPiecesOmit(cleaned, ',', '\'');
      SplitPiecesOmit(cleaned, ',', ' ');
      NonEmpty(pieces)
    else []
  }

  /** The pieces that are not empty, in order. */
  function NonEmpty(pieces: seq<string>): (r: seq<string>)
    ensures forall k :: 0 <= k < |r| ==> r[k] != "" && r[k] in pieces
    ensures forall k :: 0 <= k < |pieces| && pieces[k] != "" ==> pieces[k] in r
    ensures (forall k :: 0 <= k < |pieces| ==> pieces[k] != "") ==> r == pieces
  {
    if pieces == [] then []
    else (if pieces[0] == "" then [] else [pieces[0]]) + NonEmpty(pieces[1..])
  }

  /** Filtering a concatenation filters each part, so the kept pieces are the
      non-empty ones, in order, each as often as it occurs. */
  lemma {:induction false} NonEmptyAppend(a: seq<string>, b: seq<string>)
    ensures NonEmpty(a + b) == NonEmpty(a) + NonEmpty(b)
  {
    if a == [] {
      assert a + b == b;
    } else {
      assert (a + b)[0] == a[0] && (a + b)[1..] == a[1..] + b;
      NonEmptyAppend(a[1..], b);
    }
  }

  /** One piece is kept exactly when it is not empty. */
  lemma NonEmptySingle(p: string)
    ensures NonEmpty([p]) == if p == "" then [] else [p]
  {
    assert [p][1..] == [];
  }

  /** The quoted, comma-separated items gsettings prints between the brackets. */
  function QuotedItems(uuids: seq<string>): string
    requires |uuids| >= 1
  {
    if |uuids| == 1 then "'" + uuids[0] + "'"
    else "'" + uuids[0] + "', " + QuotedItems(uuids[1..])
  }

  /** How gsettings prints a string list; the empty list carries its type, `@as []`. */
  function PrintProfileList(uuids: seq<string>): string
  {
    if uuids == [] then "@as []" else "[" + QuotedItems(uuids) + "]"
  }

  predicate IsPlainUuid(u: string)
  {
    u != "" && ',' !in u && '\'' !in u && ' ' !in u
  }

  /** Cleaning an opening quote and a plain UUID leaves the UUID. */
  lemma CleanQuotedHead(u: string, tail: string)
    requires IsPlainUuid(u)
    ensures RemoveChars("'" + u + tail, {'\'', ' '}) == u + RemoveChars(tail, {'\'', ' '})
  {
    var cs := {'\'', ' '};
    RemoveCharsKeeps(u, cs);
    assert "'" + u + tail == "'" + (u + tail);
    RemoveCharsAppend("'", u + tail, cs);
    RemoveCharsAppend(u, tail, cs);
  }

  /** Cleaning the separator `', ` leaves a bare comma. */
  lemma CleanSeparator(rest: string)
    ensures RemoveChars("', " + rest, {'\'', ' '}) == "," + RemoveChars(rest, {'\'', ' '})
  {
    RemoveCharsAppend("', ", rest, {'\'', ' '});
  }

  lemma {:induction false} QuotedItemsCleaned(uuids: seq<string>)
    requires |uuids| >= 1
    requires forall k :: 0 <= k < |uuids| ==> IsPlainUuid(uuids[k])
    ensures RemoveChars(QuotedItems(uuids), {'\'', ' '}) == Join(uuids, ',')
  {
    var u := uuids[0];
    if |uuids| == 1 {
      CleanQuotedHead(u, "'");
    } else {
      var rest := QuotedItems(uuids[1..]);
      assert QuotedItems(uuids) == "'" + u + ("', " + rest);
      CleanQuotedHead(u, "', " + rest);
      CleanSeparator(rest);
      QuotedItemsCleaned(uuids[1..]);
    }
  }

  /** Parsing what gsettings prints gives back the UUIDs, for UUIDs without
      commas, quotes or spaces. */
  lemma ParsePrintedProfileList(uuids: seq<string>)
    requires forall k :: 0 <= k < |uuids| ==> IsPlainUuid(uuids[k])
    ensures ParseProfileList(PrintProfileList(uuids)) == uuids
  {
    var t := PrintProfileList(uuids);
    StripKeepsTrimmedString(t, Whitespace);
    if uuids == [] {
      assert t[0] == '@';
    } else {
      assert t[1..|t| - 1] == QuotedItems(uuids);
      QuotedItemsCleaned(uuids);
      SplitJoin(uuids, ',');
    }
  }
}
