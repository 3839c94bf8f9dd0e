/**
 * The `ShellKeeper` object: the session directory it scans and changes, and
 * the metadata store it owns. Each command is a method that changes this
 * state step by step as the program does; its contract ties the new state to
 * the corresponding step function of the `Registry` module, where the
 * properties of the steps are proved.
 */
module Keeper {
  import opened Optional
  import opened Naming
  import opened Metadata
  import opened Profiles
  import opened Registry

  /** The members of a sequence, as a set. */
  function Elements(xs: seq<string>): set<string>
  {
    set x | x in xs
  }

  lemma ElementsAppend(xs: seq<string>, x: string)
    ensures Elements(xs + [x]) == Elements(xs) + {x}
  {
  }

  class ShellKeeper {
    /** The session directory; a handle records what a probe would find. */
    var dir: Dir
    const metadata: SessionMetadata
    const config: Config

    ghost predicate Valid()
      reads this, metadata
    {
      metadata.Valid()
    }

    /** The directory and the metadata store, as one value. */
    function Snapshot(): State
      reads this, metadata
    {
      State(dir, metadata.data)
    }

    /** `__init__`: the session directory as found, the metadata file loaded. */
    constructor (sessions: Dir, stored: StoredFile, config: Config)
      ensures Valid() && fresh(metadata)
      ensures Snapshot() == State(sessions, Load(stored)) && this.config == config
    {
      dir := sessions;
      metadata := new SessionMetadata(stored);
      this.config := config;
    }

    /** `list_sessions`: probe every `*.sock` entry, report the live ones most
        recent first, and with `cleanDead` unlink the dead ones and then remove
        their records. */
    method ListSessions(cleanDead: bool) returns (sessions: seq<SessionView>)
      requires Valid()
      modifies this, metadata
      ensures Valid()
      ensures SortedByRecency(sessions)
      ensures forall v :: v in sessions <==> v in LiveViews(old(Snapshot()))
      ensures |sessions| == |LiveViews(old(Snapshot()))|
      ensures Snapshot() == if cleanDead then Reap(old(Snapshot())) else old(Snapshot())
    {
      var found, dead := ProbeSockets(cleanDead);
      if cleanDead {
        ForgetSessions(dead);
      }
      sessions := SortByRecency(found);
      assert forall v :: v in sessions <==> v in multiset(found);
    }

    /** The loop of `list_sessions`: one view per live socket, each read from
        the records as they are before any removal; the stem of every dead
        socket; with `cleanDead`, the dead sockets unlinked. */
    method ProbeSockets(cleanDead: bool) returns (found: seq<SessionView>, dead: seq<string>)
      requires Valid()
      modifies this
      ensures Valid()
      ensures forall v :: v in found <==> v in LiveViews(old(Snapshot()))
      ensures |found| == |LiveViews(old(Snapshot()))|
      ensures Elements(dead) == StemsOf(DeadSockets(old(Snapshot())))
      ensures dir == if cleanDead then old(dir) - DeadSockets(old(Snapshot())) else old(dir)
    {
      ghost var s0 := Snapshot();
      ListingIsPartitioned(s0);
      var listed := set f | f in dir && IsSocketFile(f);
      var pending := listed;
      ghost var live: seq<string> := [];
      ghost var liveDone: set<string> := {};
      ghost var deadDone: set<string> := {};
      found, dead := [], [];
      while pending != {}
        invariant liveDone <= LiveSockets(s0) && deadDone <= DeadSockets(s0)
        invariant pending + liveDone + deadDone == listed
        invariant pending !! liveDone && pending !! deadDone
        invariant dir == if cleanDead then s0.dir - deadDone else s0.dir
        invariant forall f :: f in live <==> f in liveDone
        invariant Distinct(live)
        invariant found == ViewsOf(s0, live)
        invariant Elements(dead) == StemsOf(deadDone)
        decreases pending
      {
        var f :| f in pending;
        if IsAlive(dir, f) {
          var record := metadata.Get(Stem(f));
          var view := SessionView(Stem(f), f, dir[f].mtime, record.profileName, record.profileUuid, record.created);
          ViewsOfAppend(s0, live, f);
          found := found + [view];
          live := live + [f];
          liveDone := liveDone + {f};
        } else {
          StemsOfAddOne(deadDone, f);
          ElementsAppend(dead, Stem(f));
          dead := dead + [Stem(f)];
          deadDone := deadDone + {f};
          if cleanDead {
            dir := dir - {f};
          }
        }
        pending := pending - {f};
      }
      PartsOfPartition(liveDone, deadDone, LiveSockets(s0), DeadSockets(s0));
      ViewsOfLiveSockets(s0, live);
    }

    /** The removal loop of `list_sessions`: `metadata.remove` for each name. */
    method ForgetSessions(names: seq<string>)
      requires Valid()
      modifies metadata
      ensures Valid()
      ensures metadata.data == old(metadata.data) - Elements(names)
    {
      var k := 0;
      while k < |names|
        invariant 0 <= k <= |names|
        invariant Valid()
        invariant metadata.data == old(metadata.data) - Elements(names[..k])
      {
        assert Elements(names[..k + 1]) == Elements(names[..k]) + {names[k]} by {
          assert names[..k + 1] == names[..k] + [names[k]];
        }
        metadata.Remove(names[k]);
        k := k + 1;
      }
      assert names[..k] == names;
    }

    /** `create_session`: resolve the profile, pick the name, refuse a name
        whose socket exists, write the record, then run the multiplexer, which
        leaves `left` behind at the socket's path when it returns. */
    method CreateSession(name: Option<string>, given: Choice, matchCurrent: bool,
                         currentSession: Option<string>,
                         byName: string -> Option<Profile>, byUuid: string -> Option<Profile>,
                         clock: Clock, left: Option<Handle>)
      returns (ok: bool, sessionName: string)
      requires Valid()
      modifies this, metadata
      ensures Valid()
      ensures var r := Registry.CreateSession(old(Snapshot()), name, given, matchCurrent, currentSession,
                                              config, byName, byUuid, clock);
        && ok == r.ok && sessionName == r.name
        && metadata.data == r.state.meta
        && dir == if ok then AfterMultiplexer(old(dir), SocketFileName(sessionName), left) else old(dir)
    {
      var current: Option<Choice> := None;
      if matchCurrent && Truthy(currentSession) {
        var record := metadata.Get(currentSession.value);
        if !record.IsEmpty() {
          current := Some(Choice(record.profileName, record.profileUuid));
        }
      }
      var choice := ResolveProfile(MatchCurrent(given, matchCurrent, current), config.defaults, byName, byUuid);
      if Truthy(name) {
        sessionName := name.value;
      } else {
        sessionName := GenerateSessionName(config.nameFormat, choice.name, clock.date, clock.time, clock.random);
      }
      var socket := SocketFileName(sessionName);
      if socket in dir {
        return false, sessionName;
      }
      metadata.Set(sessionName, choice.name, choice.uuid, clock.now);
      RunMultiplexer(sessionName, left);
      ok := true;
    }

    /** The hand-over to the multiplexer (`dtach -c` or `dtach -a`), which runs
        only once the session's record is in the store and in its file; when it
        returns it has left `left` at the session's socket path. */
    method RunMultiplexer(name: string, left: Option<Handle>)
      requires Valid() && name in metadata.data && metadata.file == Written(metadata.data)
      modifies this
      ensures Valid()
      ensures dir == AfterMultiplexer(old(dir), SocketFileName(name), left)
    {
      dir := AfterMultiplexer(dir, SocketFileName(name), left);
    }

    /** `attach_session`: refuse a missing socket, reap a dead one, otherwise
        refresh the record and attach, the multiplexer leaving `left` behind. */
    method AttachSession(name: string, now: string, left: Option<Handle>) returns (ok: bool)
      requires Valid()
      modifies this, metadata
      ensures Valid()
      ensures var r := Attach(old(Snapshot()), name, now);
        && ok == r.ok
        && metadata.data == r.state.meta
        && dir == if ok then AfterMultiplexer(r.state.dir, SocketFileName(name), left) else r.state.dir
    {
      var socket := SocketFileName(name);
      if socket !in dir {
        return false;
      }
      if !IsAlive(dir, socket) {
        dir := dir - {socket};
        metadata.Remove(name);
        return false;
      }
      var record := metadata.Get(name);
      metadata.Set(name, record.profileName, record.profileUuid, now);
      RunMultiplexer(name, left);
      ok := true;
    }

    /** `kill_session`. */
    method KillSession(name: string) returns (ok: bool)
      requires Valid()
      modifies this, metadata
      ensures Valid()
      ensures Kill(old(Snapshot()), name) == Step(ok, Snapshot())
    {
      var socket := SocketFileName(name);
      if socket !in dir {
        return false;
      }
      dir := dir - {socket};
      metadata.Remove(name);
      ok := true;
    }

    /** `rename_session`. */
    method RenameSession(oldName: string, newName: string, now: string) returns (ok: bool)
      requires Valid()
      modifies this, metadata
      ensures Valid()
      ensures Rename(old(Snapshot()), oldName, newName, now) == Step(ok, Snapshot())
    {
      var oldSocket := SocketFileName(oldName);
      var newSocket := SocketFileName(newName);
      if oldSocket !in dir || newSocket in dir {
        return false;
      }
      dir := (dir - {oldSocket})[newSocket := dir[oldSocket]];
      var record := metadata.Get(oldName);
      if !record.IsEmpty() {
        metadata.Remove(oldName);
        metadata.Set(newName, record.profileName, record.profileUuid, now);
      }
      ok := true;
    }

    /** `get_session_info`: changes nothing. */
    method GetSessionInfo(name: string) returns (info: Option<SessionInfo>)
      ensures info == Info(Snapshot(), name)
    {
      var socket := SocketFileName(name);
      if socket !in dir {
        return None;
      }
      var record := metadata.Get(name);
      info := Some(SessionInfo(name, socket, IsAlive(dir, socket), dir[socket].mtime,
                               record.profileName, record.profileUuid, record.created, record.lastAttached));
    }

    /** The `clean` command: a reaping listing, then `metadata.clean` with the
        names of a second, non-reaping listing. */
    method CleanCommand()
      requires Valid()
      modifies this, metadata
      ensures Valid()
      ensures Snapshot() == CleanAll(old(Snapshot()))
    {
      var _ := ListSessions(true);
      ghost var reaped := Snapshot();
      var sessions := ListSessions(false);
      var names := set v | v in sessions :: v.name;
      LiveViewsNameLiveSessions(reaped);
      assert names == LiveNames(reaped);
      var _ := metadata.Clean(names);
    }

    /** The `metadata clean` command: drop the records of names a non-reaping
        listing does not report, and report the dropped names. */
    method MetadataCleanCommand() returns (removed: seq<string>)
      requires Valid()
      modifies this, metadata
      ensures Valid()
      ensures Snapshot() == MetadataClean(old(Snapshot())).0
      ensures Elements(removed) == MetadataClean(old(Snapshot())).1
    {
      ghost var s0 := Snapshot();
      var sessions := ListSessions(false);
      var names := set v | v in sessions :: v.name;
      LiveViewsNameLiveSessions(s0);
      assert names == LiveNames(s0);
      removed := metadata.Clean(names);
    }

    /** The `last` command: attach to the most recently active session, if any.
        The attach succeeds whenever the chosen socket is not the bare `.sock`
        entry; for that one the stem `.sock` is attached, which goes to the
        socket `.sock.sock` and succeeds exactly when that socket is live. */
    method AttachLast(now: string, left: Option<Handle>) returns (ok: bool, attached: Option<string>)
      requires Valid()
      modifies this, metadata
      ensures Valid()
      ensures attached.None? <==> LiveSockets(old(Snapshot())) == {}
      ensures attached.None? ==> !ok && Snapshot() == Reap(old(Snapshot()))
      ensures attached.Some? ==>
        var r := Attach(Reap(old(Snapshot())), attached.value, now);
        && ok == r.ok
        && metadata.data == r.state.meta
        && dir == if ok then AfterMultiplexer(r.state.dir, SocketFileName(attached.value), left) else r.state.dir
      ensures attached.Some? ==>
        exists f :: && f in LiveSockets(old(Snapshot())) && Stem(f) == attached.value
                    && (forall g :: g in LiveSockets(old(Snapshot())) ==> old(dir)[g].mtime <= old(dir)[f].mtime)
                    && (f != SocketSuffix ==> ok)
    {
      ghost var s0 := Snapshot();
      var sessions := ListSessions(true);
      LiveViewsNameLiveSessions(s0);
      if sessions == [] {
        return false, None;
      }
      var latest := sessions[0];
      assert latest in LiveViews(s0);
      ghost var f :| f in LiveSockets(s0) && latest == ViewOf(s0, f);
      forall g | g in LiveSockets(s0) ensures s0.dir[g].mtime <= s0.dir[f].mtime {
        assert ViewOf(s0, g) in sessions;
        var j :| 0 <= j < |sessions| && sessions[j] == ViewOf(s0, g);
        assert j == 0 || sessions[0].lastActive >= sessions[j].lastActive;
      }
      if f != SocketSuffix {
        SocketFileNameOfStem(f);
      }
      attached := Some(latest.name);
      ok := AttachSession(latest.name, now, left);
    }
  }
}
