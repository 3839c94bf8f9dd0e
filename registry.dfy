/**
 * The session registry as values: the session directory (socket handles and
 * what a probe of each would find) together with the metadata store, and the
 * effect of each lifecycle operation on them. The `ShellKeeper` class performs
 * these steps on its mutable state; the lemmas here relate the steps.
 */
module Registry {
  import opened Optional
  import opened Naming
  import opened Metadata
  import opened Profiles

  /** A directory entry: whether it is a socket special file, whether a
      listener accepts a connection on it right now, and its modification time
      as a local wall-clock reading in whole seconds. */
  datatype Handle = Handle(isSocket: bool, accepting: bool, mtime: int)

  /** The session directory, by entry name. */
  type Dir = map<string, Handle>

  /** `is_session_alive`: the entry exists, is a socket, and accepts a connection. */
  predicate IsAlive(dir: Dir, f: string)
  {
    f in dir && dir[f].isSocket && dir[f].accepting
  }

  /** Everything the registry keeps: the directory and the metadata store. */
  datatype State = State(dir: Dir, meta: Store)

  /** Every handle and every record of a name other than `name` is as before. */
  predicate OthersUnchanged(s: State, t: State, name: string)
  {
    && t.dir - {SocketFileName(name)} == s.dir - {SocketFileName(name)}
    && t.meta - {name} == s.meta - {name}
  }

  // ---------------------------------------------------------------------------
  // list_sessions
  // ---------------------------------------------------------------------------

  /** One entry of the listing: the session joined with its record, whose
      missing keys are `None`. */
  datatype SessionView = SessionView(name: string, socket: string, lastActive: int,
                                     profileName: Option<string>, profileUuid: Option<string>,
                                     created: Option<string>)

  function ViewOf(s: State, f: string): SessionView
    requires f in s.dir
  {
    var record := Lookup(s.meta, Stem(f));
    SessionView(Stem(f), f, s.dir[f].mtime, record.profileName, record.profileUuid, record.created)
  }

  /** The listed (`*.sock`) entries whose probe succeeds. */
  function LiveSockets(s: State): set<string>
  {
    set f | f in s.dir && IsSocketFile(f) && IsAlive(s.dir, f)
  }

  /** The listed entries whose probe fails. */
  function DeadSockets(s: State): set<string>
  {
    set f | f in s.dir && IsSocketFile(f) && !IsAlive(s.dir, f)
  }

  function StemsOf(fs: set<string>): set<string>
  {
    set f | f in fs :: Stem(f)
  }

  /** The names a listing reports. */
  function LiveNames(s: State): set<string>
  {
    StemsOf(LiveSockets(s))
  }

  /** What a listing reports, one view per live socket. */
  function LiveViews(s: State): set<SessionView>
  {
    set f | f in LiveSockets(s) :: ViewOf(s, f)
  }

  /** Every listed entry is classified exactly once, as live or as dead. */
  lemma ListingClassifiesEachSocketOnce(s: State, f: string)
    requires f in s.dir && IsSocketFile(f)
    ensures f in LiveSockets(s) <==> f !in DeadSockets(s)
  {
  }

  /** The effect of `list_sessions(clean_dead=True)`: dead sockets unlinked and
      the records under their names removed. */
  function Reap(s: State): (r: State)
    ensures r.dir.Keys == s.dir.Keys - DeadSockets(s)
    ensures forall f :: f in r.dir ==> r.dir[f] == s.dir[f]
    ensures r.meta.Keys == s.meta.Keys - StemsOf(DeadSockets(s))
    ensures forall n :: n in r.meta ==> r.meta[n] == s.meta[n]
    ensures DeadSockets(r) == {} && LiveSockets(r) == LiveSockets(s)
  {
    State(s.dir - DeadSockets(s), s.meta - StemsOf(DeadSockets(s)))
  }

  /** A dead socket never shares its stem with a live one, unless the bare
      `.sock` entry is present (its stem `.sock` is also that of `.sock.sock`). */
  lemma DeadAndLiveNamesDiffer(s: State)
    requires SocketSuffix !in s.dir
    ensures StemsOf(DeadSockets(s)) !! LiveNames(s)
  {
    forall f, g | f in DeadSockets(s) && g in LiveSockets(s)
      ensures Stem(f) != Stem(g)
    {
      StemsOfSocketFilesDiffer(f, g);
    }
  }

  /** The listed entries are split between the live and the dead. */
  lemma ListingIsPartitioned(s: State)
    ensures LiveSockets(s) !! DeadSockets(s)
    ensures LiveSockets(s) + DeadSockets(s) == set f | f in s.dir && IsSocketFile(f)
  {
  }

  /** Parts of two disjoint sets that together make up both are the sets. */
  lemma PartsOfPartition(a: set<string>, b: set<string>, sa: set<string>, sb: set<string>)
    requires a <= sa && b <= sb && sa !! sb && a + b == sa + sb
    ensures a == sa && b == sb
  {
  }

  lemma StemsOfAddOne(fs: set<string>, f: string)
    ensures StemsOf(fs + {f}) == StemsOf(fs) + {Stem(f)}
  {
  }

  /** Reaping leaves the live sessions, their records included, as they were:
      a second listing reports exactly what the first did. */
  lemma ReapKeepsLiveViews(s: State)
    requires SocketSuffix !in s.dir
    ensures LiveViews(Reap(s)) == LiveViews(s)
  {
    var r := Reap(s);
    DeadAndLiveNamesDiffer(s);
    forall f | f in LiveSockets(s)
      ensures ViewOf(r, f) == ViewOf(s, f)
    {
      assert Stem(f) in LiveNames(s);
      assert Lookup(r.meta, Stem(f)) == Lookup(s.meta, Stem(f));
    }
  }

  /** Reaping twice is reaping once. */
  lemma ReapIsIdempotent(s: State)
    ensures Reap(Reap(s)) == Reap(s)
  {
    var r := Reap(s);
    assert StemsOf(DeadSockets(r)) == {};
    assert r.dir - {} == r.dir && r.meta - {} == r.meta;
  }

  /** The listing's order: most recent activity first. */
  predicate SortedByRecency(vs: seq<SessionView>)
  {
    forall i, j :: 0 <= i < j < |vs| ==> vs[i].lastActive >= vs[j].lastActive
  }

  function InsertByRecency(v: SessionView, vs: seq<SessionView>): (r: seq<SessionView>)
    requires SortedByRecency(vs)
    ensures SortedByRecency(r)
    ensures multiset(r) == multiset(vs) + multiset{v}
    ensures r[0] == v || (vs != [] && r[0] == vs[0])
  {
    if vs == [] || v.lastActive >= vs[0].lastActive then
      ConsKeepsSorted(v, vs);
      [v] + vs
    else
      var rest := InsertByRecency(v, vs[1..]);
      assert vs == [vs[0]] + vs[1..];
      ConsKeepsSorted(vs[0], rest);
      [vs[0]] + rest
  }

  /** A view at least as recent as the head of a sorted listing extends it. */
  lemma ConsKeepsSorted(v: SessionView, vs: seq<SessionView>)
    requires SortedByRecency(vs)
    requires vs == [] || v.lastActive >= vs[0].lastActive
    ensures SortedByRecency([v] + vs)
  {
    var r := [v] + vs;
    forall i, j | 0 <= i < j < |r|
      ensures r[i].lastActive >= r[j].lastActive
    {
      assert r[j] == vs[j - 1];
      if i > 0 {
        assert r[i] == vs[i - 1];
      } else if j > 1 {
        assert vs[0].lastActive >= vs[j - 1].lastActive;
      }
    }
  }

  /** `sorted(sessions, key=last_active, reverse=True)`. */
  function SortByRecency(vs: seq<SessionView>): (r: seq<SessionView>)
    ensures SortedByRecency(r)
    ensures multiset(r) == multiset(vs)
  {
    if vs == [] then []
    else
      assert vs == [vs[0]] + vs[1..];
      InsertByRecency(vs[0], SortByRecency(vs[1..]))
  }

  /** The views of the given sockets, in their order. */
  function ViewsOf(s: State, fs: seq<string>): (r: seq<SessionView>)
    requires forall f :: f in fs ==> f in s.dir
    ensures |r| == |fs|
  {
    if fs == [] then [] else ViewsOf(s, fs[..|fs| - 1]) + [ViewOf(s, fs[|fs| - 1])]
  }

  lemma ViewsOfAppend(s: State, fs: seq<string>, f: string)
    requires forall g :: g in fs ==> g in s.dir
    requires f in s.dir
    ensures ViewsOf(s, fs + [f]) == ViewsOf(s, fs) + [ViewOf(s, f)]
  {
    assert (fs + [f])[..|fs|] == fs;
  }

  lemma {:induction false} ViewsOfMembers(s: State, fs: seq<string>, v: SessionView)
    requires forall f :: f in fs ==> f in s.dir
    ensures v in ViewsOf(s, fs) <==> exists f :: f in fs && v == ViewOf(s, f)
  {
    if fs != [] {
      var init := fs[..|fs| - 1];
      assert fs == init + [fs[|fs| - 1]];
      ViewsOfMembers(s, init, v);
    }
  }

  predicate Distinct(fs: seq<string>)
  {
    forall i, j :: 0 <= i < j < |fs| ==> fs[i] != fs[j]
  }

  /** A sequence without repeats has as many members as elements. */
  lemma {:induction false} DistinctCount(fs: seq<string>)
    requires Distinct(fs)
    ensures |set f | f in fs| == |fs|
  {
    if fs != [] {
      var init := fs[..|fs| - 1];
      var last := fs[|fs| - 1];
      DistinctCount(init);
      assert fs == init + [last];
      assert last !in init;
      assert (set f | f in fs) == (set f | f in init) + {last};
    }
  }

  /** Views of the live sockets, each once, are the listing. */
  lemma ViewsOfLiveSockets(s: State, fs: seq<string>)
    requires forall f :: f in fs <==> f in LiveSockets(s)
    requires Distinct(fs)
    ensures forall v :: v in ViewsOf(s, fs) <==> v in LiveViews(s)
    ensures |ViewsOf(s, fs)| == |LiveViews(s)|
  {
    forall v ensures v in ViewsOf(s, fs) <==> v in LiveViews(s) {
      ViewsOfMembers(s, fs, v);
    }
    DistinctCount(fs);
    assert (set f | f in fs) == LiveSockets(s);
    LiveViewsNameLiveSessions(s);
  }

  /** Each live socket gives its own view, named by the socket's stem. */
  lemma LiveViewsNameLiveSessions(s: State)
    ensures (set v | v in LiveViews(s) :: v.name) == LiveNames(s)
    ensures |LiveViews(s)| == |LiveSockets(s)|
  {
    var views := LiveViews(s);
    assert (set v | v in views :: v.name) == LiveNames(s) by {
      forall n | n in LiveNames(s) ensures n in (set v | v in views :: v.name) {
        var f :| f in LiveSockets(s) && Stem(f) == n;
        assert ViewOf(s, f) in views;
      }
    }
    ViewsCount(s, LiveSockets(s));
  }

  /** Distinct sockets give distinct views, so there are as many views as sockets. */
  lemma {:induction false} ViewsCount(s: State, fs: set<string>)
    requires fs <= s.dir.Keys
    ensures |set f | f in fs :: ViewOf(s, f)| == |fs|
    decreases |fs|
  {
    if fs != {} {
      var f :| f in fs;
      var rest := fs - {f};
      ViewsCount(s, rest);
      var views := set g | g in rest :: ViewOf(s, g);
      assert ViewOf(s, f) !in views;
      assert (set g | g in fs :: ViewOf(s, g)) == views + {ViewOf(s, f)};
    }
  }

  /** What the multiplexer leaves behind when its foreground command returns:
      the socket of a session that was detached, or nothing once the session
      has ended. */
  function AfterMultiplexer(dir: Dir, socket: string, left: Option<Handle>): (r: Dir)
    ensures r - {socket} == dir - {socket}
    ensures socket in r <==> left.Some?
    ensures left.Some? ==> r[socket] == left.value
  {
    if left.Some? then dir[socket := left.value] else dir - {socket}
  }

  // ---------------------------------------------------------------------------
  // create_session
  // ---------------------------------------------------------------------------

  /** The configuration keys session creation reads. */
  datatype Config = Config(defaults: ProfileDefaults, nameFormat: seq<Field>)

  /** The clock's ISO timestamp, its `%Y%m%d` and `%H%M%S`, and the random suffix. */
  datatype Clock = Clock(now: string, date: string, time: string, random: string)

  datatype Created = Created(ok: bool, name: string, profile: Choice, state: State)

  /** The calling session's profile, when `--match` may use it: the session is
      named and its record is not empty. */
  function CurrentProfile(s: State, currentSession: Option<string>): Option<Choice>
  {
    if Truthy(currentSession) && !Lookup(s.meta, currentSession.value).IsEmpty() then
      var record := Lookup(s.meta, currentSession.value);
      Some(Choice(record.profileName, record.profileUuid))
    else None
  }

  /** `create_session` up to the point where it hands over to the multiplexer:
      resolve the profile, pick the name, refuse an existing socket, and write
      the record. */
  function CreateSession(s: State, name: Option<string>, given: Choice, matchCurrent: bool,
                         currentSession: Option<string>, config: Config,
                         byName: string -> Option<Profile>, byUuid: string -> Option<Profile>,
                         clock: Clock): (r: Created)
    ensures Truthy(name) ==> r.name == name.value
    ensures !Truthy(name) ==>
      r.name == GenerateSessionName(config.nameFormat, r.profile.name, clock.date, clock.time, clock.random)
    ensures r.ok <==> SocketFileName(r.name) !in s.dir
    ensures !r.ok ==> r.state == s
    ensures r.ok ==> r.state.dir == s.dir && r.name in r.state.meta
    ensures r.ok ==> r.state.meta == Upsert(s.meta, r.name, r.profile.name, r.profile.uuid, clock.now)
    ensures r.profile
         == ResolveProfile(MatchCurrent(given, matchCurrent, CurrentProfile(s, currentSession)),
                           config.defaults, byName, byUuid)
  {
    var choice := ResolveProfile(MatchCurrent(given, matchCurrent, CurrentProfile(s, currentSession)),
                                 config.defaults, byName, byUuid);
    var sessionName :=
      if Truthy(name) then name.value
      else GenerateSessionName(config.nameFormat, choice.name, clock.date, clock.time, clock.random);
    if SocketFileName(sessionName) in s.dir then
      Created(false, sessionName, choice, s)
    else
      Created(true, sessionName, choice,
              State(s.dir, Upsert(s.meta, sessionName, choice.name, choice.uuid, clock.now)))
  }

  /** Creating a name whose socket the multiplexer has since made is refused,
      and the first creation's record, `created` included, stays as it was. */
  lemma SecondCreateIsRefused(s: State, n: string, g1: Choice, g2: Choice, m1: bool, m2: bool,
                              c1: Option<string>, c2: Option<string>, config: Config,
                              byName: string -> Option<Profile>, byUuid: string -> Option<Profile>,
                              k1: Clock, k2: Clock, socket: Handle)
    requires n != ""
    requires CreateSession(s, Some(n), g1, m1, c1, config, byName, byUuid, k1).ok
    ensures var first := CreateSession(s, Some(n), g1, m1, c1, config, byName, byUuid, k1).state;
      var spawned := first.(dir := first.dir[SocketFileName(n) := socket]);
      var second := CreateSession(spawned, Some(n), g2, m2, c2, config, byName, byUuid, k2);
      && !second.ok && second.name == n
      && second.state == spawned && second.state.meta[n] == first.meta[n]
  {
  }

  /** A session created without a name under the default template is named
      `<profile slug>-<date>-<time>-<random>`, with each part readable back,
      and a listing finds it under that name. */
  lemma UnnamedSessionGetsGeneratedName(s: State, given: Choice, matchCurrent: bool,
                                        currentSession: Option<string>, config: Config,
                                        byName: string -> Option<Profile>, byUuid: string -> Option<Profile>,
                                        clock: Clock)
    requires config.nameFormat == DefaultNameFormat
    requires |clock.date| == 8 && IsDigits(clock.date) && |clock.time| == 6 && IsDigits(clock.time)
    requires IsRandomSuffix(clock.random)
    ensures var r := CreateSession(s, None, given, matchCurrent, currentSession, config, byName, byUuid, clock);
      && SplitGeneratedName(r.name) == Some(NameParts(ProfileSlug(r.profile.name), clock.date, clock.time, clock.random))
      && Stem(SocketFileName(r.name)) == r.name
  {
    var r := CreateSession(s, None, given, matchCurrent, currentSession, config, byName, byUuid, clock);
    GeneratedNameRoundTrip(r.profile.name, clock.date, clock.time, clock.random);
    GeneratedNameIsListable(r.profile.name, clock.date, clock.time, clock.random);
  }

  // ---------------------------------------------------------------------------
  // attach_session, kill_session, rename_session
  // ---------------------------------------------------------------------------

  /** The outcome of an operation and the state after it. */
  datatype Step = Step(ok: bool, state: State)

  /** `attach_session` up to the hand-over to the multiplexer. */
  function Attach(s: State, name: string, now: string): (r: Step)
    ensures r.ok <==> IsAlive(s.dir, SocketFileName(name))
    ensures SocketFileName(name) !in s.dir ==> r.state == s
    ensures !r.ok ==> SocketFileName(name) !in r.state.dir
    ensures SocketFileName(name) in s.dir && !r.ok ==> name !in r.state.meta
    ensures r.ok ==> && r.state.dir == s.dir
                     && name in r.state.meta
                     && r.state.meta[name].lastAttached == Some(now)
                     && r.state.meta[name].profileName == Lookup(s.meta, name).profileName
                     && r.state.meta[name].profileUuid == Lookup(s.meta, name).profileUuid
                     && r.state.meta[name].created == (if name in s.meta then s.meta[name].created else Some(now))
    ensures OthersUnchanged(s, r.state, name)
  {
    var socket := SocketFileName(name);
    if socket !in s.dir then
      Step(false, s)
    else if !IsAlive(s.dir, socket) then
      Step(false, State(s.dir - {socket}, Drop(s.meta, name)))
    else
      var record := Lookup(s.meta, name);
      Step(true, State(s.dir, Upsert(s.meta, name, record.profileName, record.profileUuid, now)))
  }

  /** `kill_session`: only the socket's existence is checked, never its liveness. */
  function Kill(s: State, name: string): (r: Step)
    ensures r.ok <==> SocketFileName(name) in s.dir
    ensures !r.ok ==> r.state == s
    ensures r.ok ==> SocketFileName(name) !in r.state.dir && name !in r.state.meta
    ensures OthersUnchanged(s, r.state, name)
  {
    var socket := SocketFileName(name);
    if socket !in s.dir then Step(false, s)
    else Step(true, State(s.dir - {socket}, Drop(s.meta, name)))
  }

  /** `rename_session`. */
  function Rename(s: State, oldName: string, newName: string, now: string): (r: Step)
    ensures r.ok <==> SocketFileName(oldName) in s.dir && SocketFileName(newName) !in s.dir
    ensures !r.ok ==> r.state == s
    ensures r.ok ==> && oldName != newName
                     && SocketFileName(oldName) !in r.state.dir
                     && SocketFileName(newName) in r.state.dir
                     && r.state.dir[SocketFileName(newName)] == s.dir[SocketFileName(oldName)]
                     && r.state.dir - {SocketFileName(newName)} == s.dir - {SocketFileName(oldName)}
    ensures r.ok && Lookup(s.meta, oldName).IsEmpty() ==> r.state.meta == s.meta
    ensures r.ok && !Lookup(s.meta, oldName).IsEmpty() ==>
      var moved := s.meta[oldName];
      var orphan := Lookup(s.meta, newName);
      && oldName !in r.state.meta && newName in r.state.meta
      && r.state.meta[newName].profileName == (if moved.profileName.Some? then moved.profileName else orphan.profileName)
      && r.state.meta[newName].profileUuid == (if moved.profileUuid.Some? then moved.profileUuid else orphan.profileUuid)
      && r.state.meta[newName].lastAttached == Some(now)
      && r.state.meta[newName].created == (if newName in s.meta then orphan.created else Some(now))
      && r.state.meta - {oldName, newName} == s.meta - {oldName, newName}
  {
    var oldSocket := SocketFileName(oldName);
    var newSocket := SocketFileName(newName);
    if oldSocket !in s.dir || newSocket in s.dir then
      Step(false, s)
    else
      var dir := (s.dir - {oldSocket})[newSocket := s.dir[oldSocket]];
      var record := Lookup(s.meta, oldName);
      if record.IsEmpty() then
        Step(true, State(dir, s.meta))
      else
        Step(true, State(dir, Upsert(Drop(s.meta, oldName), newName, record.profileName, record.profileUuid, now)))
  }

  /** Renaming there and back restores the directory; a session whose record
      was not empty gets its profile back under its old name, although its
      `created` time is that of the second rename. */
  lemma RenameThereAndBack(s: State, a: string, b: string, t1: string, t2: string)
    requires Rename(s, a, b, t1).ok
    requires b !in s.meta
    ensures var there := Rename(s, a, b, t1).state;
      var back := Rename(there, b, a, t2);
      && back.ok
      && back.state.dir == s.dir
      && (!Lookup(s.meta, a).IsEmpty() ==>
            && back.state.meta.Keys == s.meta.Keys
            && back.state.meta[a].profileName == s.meta[a].profileName
            && back.state.meta[a].profileUuid == s.meta[a].profileUuid
            && back.state.meta[a].created == Some(t2))
  {
    var there := Rename(s, a, b, t1).state;
    var back := Rename(there, b, a, t2);
    assert back.state.dir == s.dir;
  }

  /** After a kill, the session is gone: attaching finds nothing and changes nothing. */
  lemma KilledSessionIsNotFound(s: State, name: string, now: string)
    requires Kill(s, name).ok
    ensures var after := Kill(s, name).state;
      Attach(after, name, now) == Step(false, after) && Info(after, name).None?
  {
  }

  /** After a listing has reaped a dead session, attaching to it finds nothing
      and changes nothing: attach never resurrects a dead session. */
  lemma ReapedSessionIsNotFound(s: State, name: string, now: string)
    requires SocketFileName(name) in DeadSockets(s)
    ensures Attach(Reap(s), name, now) == Step(false, Reap(s))
  {
  }

  // ---------------------------------------------------------------------------
  // get_session_info
  // ---------------------------------------------------------------------------

  datatype SessionInfo = SessionInfo(name: string, socket: string, alive: bool, lastModified: int,
                                     profileName: Option<string>, profileUuid: Option<string>,
                                     created: Option<string>, lastAttached: Option<string>)

  /** `get_session_info`: `None` when there is no socket; otherwise the probe
      result joined with the record, whose missing keys are `None`. */
  function Info(s: State, name: string): (r: Option<SessionInfo>)
    ensures r.Some? <==> SocketFileName(name) in s.dir
    ensures r.Some? ==> && r.value.name == name
                        && r.value.alive == IsAlive(s.dir, SocketFileName(name))
                        && r.value.profileName == Lookup(s.meta, name).profileName
                        && r.value.profileUuid == Lookup(s.meta, name).profileUuid
                        && r.value.created == Lookup(s.meta, name).created
                        && r.value.lastAttached == Lookup(s.meta, name).lastAttached
  {
    var socket := SocketFileName(name);
    if socket !in s.dir then None
    else
      var record := Lookup(s.meta, name);
      Some(SessionInfo(name, socket, IsAlive(s.dir, socket), s.dir[socket].mtime,
                       record.profileName, record.profileUuid, record.created, record.lastAttached))
  }

  /** `info` and the listing agree: a session reported alive is listed, with
      the same profile and creation time. */
  lemma InfoAgreesWithListing(s: State, name: string)
    requires name != ""
    requires Info(s, name).Some? && Info(s, name).value.alive
    ensures var v := ViewOf(s, SocketFileName(name));
      && v in LiveViews(s) && v.name == name
      && v.profileName == Info(s, name).value.profileName
      && v.profileUuid == Info(s, name).value.profileUuid
      && v.created == Info(s, name).value.created
  {
    StemOfSocketFileName(name);
    assert SocketFileName(name) in LiveSockets(s);
  }

  // ---------------------------------------------------------------------------
  // The `clean` and `metadata clean` commands
  // ---------------------------------------------------------------------------

  /** `clean`: a reaping listing, then `metadata.clean` with the names a second,
      non-reaping listing reports. */
  function CleanAll(s: State): (r: State)
    ensures DeadSockets(r) == {}
    ensures r.meta.Keys <= LiveNames(r)
    ensures LiveSockets(r) == LiveSockets(s)
    ensures r.dir == s.dir - DeadSockets(s)
    ensures r.meta.Keys == (s.meta.Keys - StemsOf(DeadSockets(s))) * LiveNames(s)
    ensures forall n :: n in r.meta ==> n in s.meta && r.meta[n] == s.meta[n]
  {
    var reaped := Reap(s);
    State(reaped.dir, Restrict(reaped.meta, LiveNames(reaped)))
  }

  /** Without the bare `.sock` entry, `clean` keeps exactly the records of the
      sessions a listing reports, each unchanged. */
  lemma CleanAllKeepsLiveRecords(s: State)
    requires SocketSuffix !in s.dir
    ensures CleanAll(s).meta.Keys == s.meta.Keys * LiveNames(s)
    ensures forall n :: n in s.meta && n in LiveNames(s) ==> CleanAll(s).meta[n] == s.meta[n]
  {
    DeadAndLiveNamesDiffer(s);
  }

  /** `clean` twice is `clean` once. */
  lemma CleanAllIsIdempotent(s: State)
    ensures CleanAll(CleanAll(s)) == CleanAll(s)
  {
    var c := CleanAll(s);
    assert Reap(c) == c by {
      assert DeadSockets(c) == {};
      assert StemsOf({}) == {};
      assert c.dir - {} == c.dir && c.meta - {} == c.meta;
    }
    assert Restrict(c.meta, LiveNames(c)) == c.meta by {
      assert c.meta.Keys <= LiveNames(c);
    }
  }

  /** `metadata clean`: drop every record not named by a non-reaping listing,
      leaving the directory alone; the removed names are reported. */
  function MetadataClean(s: State): (r: (State, set<string>))
    ensures r.0.dir == s.dir
    ensures r.0.meta.Keys == s.meta.Keys * LiveNames(s)
    ensures forall n :: n in r.0.meta ==> r.0.meta[n] == s.meta[n]
    ensures r.1 == s.meta.Keys - LiveNames(s)
  {
    (State(s.dir, Restrict(s.meta, LiveNames(s))), s.meta.Keys - LiveNames(s))
  }

  /** Records of dead sessions whose sockets are still there are removed too. */
  lemma MetadataCleanDropsDeadRecords(s: State, name: string)
    requires name != "" && SocketSuffix !in s.dir
    requires SocketFileName(name) in DeadSockets(s) && name in s.meta
    ensures name in MetadataClean(s).1 && name !in MetadataClean(s).0.meta
  {
    StemOfSocketFileName(name);
    DeadAndLiveNamesDiffer(s);
    assert name in StemsOf(DeadSockets(s));
  }
}
