# ShellKeeper session registry in Dafny

ShellKeeper (`bin/shellkeeper.py`) keeps named, detachable terminal sessions.
Each session is a socket file `<name>.sock` in the session directory, which
the dtach multiplexer creates, and a record in a JSON metadata file. The record
holds `created`, `last_attached`, `profile_name` and `profile_uuid`. This
project models the registry that keeps those two stores consistent:

- the metadata store and its operations;
- socket naming and its inverse (`Path.stem`);
- `slugify` and generated session names;
- the precedence in which `create_session` resolves a terminal profile;
- the session lifecycle: `list_sessions`, `create_session`, `attach_session`,
  `kill_session`, `rename_session`, `get_session_info`, and the `clean`,
  `metadata clean` and `last` commands;
- the bracket-list parser of `list_profiles`.

Modules, one per file:

- `Optional` (`optional.dfy`): `Option`, Python truthiness of optional strings, and `x or y`.
- `Strings` (`strings.dfy`): `strip`, `replace`-by-removal, `split` and `join`.
- `Naming` (`naming.dfy`): socket file names and `Path.stem`, `slugify`, and `generate_session_name`.
- `Profiles` (`profiles.dfy`): profile-resolution precedence, with the two
  gsettings lookups passed in as functions, and the profile-list parser.
- `Metadata` (`metadata.dfy`): the pure map operations, and the `SessionMetadata`
  class whose ghost `file` field is the persisted snapshot.
- `Registry` (`registry.dfy`): the directory and the store as one value `State`.
  It defines each lifecycle step as a function on `State`, together with the
  lemmas relating the steps.
- `Keeper` (`keeper.dfy`): the `ShellKeeper` class. Its fields are the session
  directory and the `SessionMetadata` object. Its methods change them step by
  step, as the program does. Each method's contract states that the new state
  is the `Registry` step applied to the old one.

How the model represents the program's environment:

- The session directory is a map from entry name to a `Handle`. A handle
  records three things: whether the entry is a socket, whether a connection to
  it would be accepted (the liveness probe of `is_session_alive`), and its
  modification time as a local wall-clock reading in whole seconds.
- Clock readings, the random suffix and the calling session's name
  (`SHELLKEEPER_SESSION`) are parameters.
- What dtach leaves at the socket's path when it returns is also a parameter:
  a detached session's socket, or nothing once the session has ended.

Behaviour of the source that the model makes explicit:

- `Path.stem` maps every socket file back to its session's name, with one
  exception: the empty name. Its socket `.sock` lists as the session `.sock`,
  which shares its stem with `.sock.sock`. The lemmas that rely on stems
  exclude that one entry.
- `slugify` can end in a hyphen when the cut at 20 characters falls just after
  one. So it is not idempotent (`Naming.SlugifyCanEndInHyphen`, `Naming.SlugifyStripsTrailingHyphen`).
- `rename_session` moves only the profile fields. The record under the new name
  is written by `set`, so `created` becomes the time of the rename. If an old
  record for the new name was left behind, its `created` is kept instead, and
  so are any of its profile fields the moved record lacks. A renamed session
  with an empty record keeps the store as it was.
- `kill_session` never probes liveness. `attach_session` on a dead socket
  removes the socket and the record.

## Model

| member | source | states |
|---|---|---|
| `Strings.TrimStart` | bin/shellkeeper.py:280 | the result is a suffix of the input; every dropped character is in the set; the result does not start with one |
| `Strings.TrimEnd` | bin/shellkeeper.py:280 | the result is a prefix of the input; every dropped character is in the set; the result does not end with one |
| `Strings.Strip` | bin/shellkeeper.py:280 | `strip(chars)` is `lstrip` then `rstrip`; its properties are those of `TrimStart` and `TrimEnd` and `StripKeepsTrimmedString` |
| `Strings.StripKeepsTrimmedString` | bin/shellkeeper.py:280 | a string whose first and last characters are outside the set is its own `strip` |
| `Strings.RemoveChars` | bin/shellkeeper.py:118 | no removed character is left, and the result is no longer than the input; `RemoveCharsKeepsOthers` states that every other character is kept |
| `Strings.RemoveCharsAppend` | bin/shellkeeper.py:118 | removal distributes over concatenation |
| `Strings.RemoveCharsKeeps` | bin/shellkeeper.py:118 | a string without the removed characters is unchanged |
| `Strings.RemoveCharsKeepsOthers` | bin/shellkeeper.py:118 | every character outside the removed set occurs in the result exactly as often as in the input |
| `Strings.Split` | bin/shellkeeper.py:118 | `split` gives at least one piece; no piece holds the separator; joining the pieces gives the input back |
| `Strings.SplitPiecesOmit` | bin/shellkeeper.py:118 | a character absent from the input is absent from every piece |
| `Strings.SplitAfterPiece` | bin/shellkeeper.py:118 | splitting `a + sep + b` gives `a` followed by the pieces of `b` |
| `Strings.SplitWithoutSeparator` | bin/shellkeeper.py:118 | a string without the separator splits into itself alone |
| `Strings.SplitJoin` | bin/shellkeeper.py:118 | splitting a join of separator-free pieces gives the pieces back |
| `Naming.LastDot` | bin/shellkeeper.py:333 | the index found holds a dot and no later index does; -1 means there is no dot |
| `Naming.SocketFileName` | bin/shellkeeper.py:267-269 | `<name>.sock`; `SocketFileNameInjective` and `StemOfSocketFileName` state its properties |
| `Naming.Stem` | bin/shellkeeper.py:333 | `Path.stem`: the name up to the last dot unless that dot is first or last; `StemOfSocketFileName` and `SocketFileNameOfStem` state its properties |
| `Naming.IsSocketFile` | bin/shellkeeper.py:332 | the `glob("*.sock")` filter: the entry name ends in `.sock` (the bare `.sock` included) |
| `Naming.SocketFileNameInjective` | bin/shellkeeper.py:267-269 | distinct session names have distinct socket files |
| `Naming.StemOfSocketFileName` | bin/shellkeeper.py:332-333 | a non-empty name's socket matches `*.sock`, and its stem is the name again |
| `Naming.SocketFileNameOfStem` | bin/shellkeeper.py:332-333 | every `*.sock` entry except `.sock` is the socket of its stem, which is non-empty |
| `Naming.EmptyNameIsNotRecovered` | bin/shellkeeper.py:267-269 | the empty name's socket `.sock` has the stem `.sock`, not the empty name |
| `Naming.StemsOfSocketFilesDiffer` | bin/shellkeeper.py:332-333 | two distinct `*.sock` entries other than `.sock` have distinct stems |
| `Naming.Collapse` | bin/shellkeeper.py:278 | the result has only `[a-z0-9-]`, never two hyphens in a row, and exactly the input's letters and digits; `CollapseKeepsAlnum` and `CollapseSeparatorRun` state where the hyphens go |
| `Naming.Slugify` | bin/shellkeeper.py:271-282 | non-empty, at most 20 characters of `[a-z0-9-]`, no leading hyphen, no two hyphens in a row; `"default"` for None, empty input, or input without letters and digits |
| `Naming.SliceKeepsSlugChars` | bin/shellkeeper.py:282 | cutting a slug keeps its character set and the absence of double hyphens |
| `Naming.AlnumsAppend` | bin/shellkeeper.py:278 | the letters and digits of a concatenation are those of its parts |
| `Naming.AlnumsOfHyphens` | bin/shellkeeper.py:280 | a run of hyphens contributes no letters or digits |
| `Naming.NoAlnumsMeansHyphens` | bin/shellkeeper.py:280-282 | a slug-character string without letters and digits is all hyphens |
| `Naming.TrimStartKeepsSlug` | bin/shellkeeper.py:280 | stripping leading hyphens keeps slug characters, single hyphens and the letters and digits |
| `Naming.TrimEndKeepsSlug` | bin/shellkeeper.py:280 | stripping trailing hyphens keeps slug characters, single hyphens and the letters and digits |
| `Naming.StrippedCollapse` | bin/shellkeeper.py:278-280 | collapsing and stripping leave a string of slug characters with hyphens only inside, and with the input's letters and digits; nothing is left of an input without letters or digits |
| `Naming.SlugifyKeepsInputAlnums` | bin/shellkeeper.py:271-282 | the slug's letters and digits are a prefix of the input's, and the slug starts with the input's first letter or digit |
| `Naming.SlugifyFixesFinishedSlugs` | bin/shellkeeper.py:271-282 | a slug that does not end in a hyphen is its own slug |
| `Naming.CollapseFixpoint` | bin/shellkeeper.py:278 | a string already of slug characters with single hyphens passes through the substitution unchanged |
| `Naming.CollapseAlnumPrefix` | bin/shellkeeper.py:278 | a leading run of letters and digits passes through the substitution unchanged |
| `Naming.CollapseMergesSeparator` | bin/shellkeeper.py:278 | a character outside `[a-z0-9]` becomes a hyphen when it starts a run, and is dropped when it continues one |
| `Naming.CollapseSeparatorRun` | bin/shellkeeper.py:278 | a whole run of characters outside `[a-z0-9]` becomes exactly one hyphen, or nothing when it continues a run already replaced |
| `Naming.LowerKeepsLowerCase` | bin/shellkeeper.py:276 | a string without upper-case letters is its own `lower()` |
| `Naming.Lower` | bin/shellkeeper.py:276 | `lower()` on ASCII letters; `LowerKeepsLowerCase` states that it leaves lower-case text alone |
| `Naming.SlugifyCanEndInHyphen` | bin/shellkeeper.py:280-282 | any 19 letters or digits followed by `" b"` slug to those 19 characters plus `-`: the cut happens after the strip, so a slug can end in a hyphen |
| `Naming.SlugifyStripsTrailingHyphen` | bin/shellkeeper.py:280-282 | the slug of those 19 characters plus `-` is the 19 characters, so slugify is not idempotent |
| `Naming.StripTrailingHyphen` | bin/shellkeeper.py:280 | stripping hyphens from letters and digits followed by one hyphen removes exactly that hyphen |
| `Naming.CollapseSpaceLetter` | bin/shellkeeper.py:278 | letters and digits followed by `" b"` become those characters followed by `-b` |
| `Naming.CollapseSpaceB` | bin/shellkeeper.py:278 | `" b"` becomes `-b` |
| `Naming.CollapseKeepsAlnum` | bin/shellkeeper.py:278 | a letter or digit is copied and ends a run being replaced |
| `Naming.ConsKeepsSingleHyphens` | bin/shellkeeper.py:278 | a character put in front of a string without double hyphens keeps it so, unless a hyphen meets a hyphen |
| `Naming.SlugifyOfStripped` | bin/shellkeeper.py:271-282 | for a non-empty text, the slug is what collapsing and stripping leave, cut to 20 characters |
| `Naming.FormatNameCons` | bin/shellkeeper.py:293-298 | formatting a template is formatting its first piece, then the rest |
| `Naming.FormatName` | bin/shellkeeper.py:293-298 | `str.format` with the four fields; `FormatNameCons` and `DefaultFormatLayout` state its properties |
| `Naming.GenerateSessionName` | bin/shellkeeper.py:284-300 | the template filled with the profile slug, date, time and suffix; `GeneratedNameRoundTrip`, `GeneratedNamesCollideOnlyOnEqualParts` and `GeneratedNameIsListable` state its properties |
| `Naming.ProfileSlug` | bin/shellkeeper.py:289 | the `{profile}` field: the slug of a truthy profile name, otherwise `"default"`; its properties follow from `Slugify`'s contract |
| `Naming.DefaultFormatLayout` | bin/shellkeeper.py:291-298 | the default template gives `<profile>-<date>-<time>-<random>` |
| `Naming.GeneratedNameRoundTrip` | bin/shellkeeper.py:284-300 | from a name the default template built, the profile slug, the 8-character date, the 6-character time and the 4-character suffix are read back exactly |
| `Naming.SplitLayout` | bin/shellkeeper.py:291-298 | reading the four parts back from `<p>-<date>-<time>-<random>` gives the parts |
| `Naming.GeneratedNamesCollideOnlyOnEqualParts` | bin/shellkeeper.py:284-300 | two generated names are equal only if slug, date, time and suffix all are |
| `Naming.GeneratedNameIsListable` | bin/shellkeeper.py:284-300 | a generated name uses only slug characters, does not start with a hyphen, and a listing finds its socket under the same name |
| `Profiles.MatchCurrent` | bin/shellkeeper.py:363-370 | `--match` keeps every field the caller gave and fills each falsy one from the calling session's record; without a calling session's non-empty record it changes nothing |
| `Profiles.ResolveProfile` | bin/shellkeeper.py:372-396 | the three resolution steps in order; the lemmas below state each precedence case |
| `Profiles.GivenPairIsKept` | bin/shellkeeper.py:372-396 | with both name and UUID given, resolution changes nothing |
| `Profiles.NameOnlyIsLookedUp` | bin/shellkeeper.py:372-377 | with only a name, a profile found by it supplies name and UUID; otherwise the choice stays as given |
| `Profiles.UuidOnlyIsLookedUp` | bin/shellkeeper.py:379-383 | with only a UUID, the UUID is kept and a profile found by it supplies the name |
| `Profiles.DefaultsOnlyWithoutProfile` | bin/shellkeeper.py:385-396 | the configured defaults make no difference once a name or a UUID was given |
| `Profiles.DefaultUuidWins` | bin/shellkeeper.py:386-391 | without a profile, the configured default UUID is used even when no profile has it, and wins over the default name |
| `Profiles.DefaultNameNeedsProfile` | bin/shellkeeper.py:392-396 | without a profile or a default UUID, the default name is used only if a profile of that name exists |
| `Profiles.ResolutionKeepsAProfile` | bin/shellkeeper.py:372-396 | a given profile or a configured default UUID always leaves the session with a profile name or UUID |
| `Profiles.ParseProfileList` | bin/shellkeeper.py:115-119 | every UUID parsed is non-empty and holds no comma, quote or space |
| `Profiles.NonEmpty` | bin/shellkeeper.py:119 | every kept piece is a non-empty piece of the input, every non-empty piece is kept, and all pieces are kept when none is empty; with `NonEmptyAppend` and `NonEmptySingle` the result is exactly the non-empty pieces in order, repeats included |
| `Profiles.NonEmptyAppend` | bin/shellkeeper.py:119 | filtering a concatenation is filtering each part and concatenating the results |
| `Profiles.NonEmptySingle` | bin/shellkeeper.py:119 | a single piece is kept exactly when it is not empty |
| `Profiles.CleanQuotedHead` | bin/shellkeeper.py:118 | removing quotes and spaces from `'uuid…` leaves the UUID |
| `Profiles.CleanSeparator` | bin/shellkeeper.py:118 | removing quotes and spaces from `', ` leaves a bare comma |
| `Profiles.QuotedItemsCleaned` | bin/shellkeeper.py:118 | the quoted items gsettings prints clean to the UUIDs joined by commas |
| `Profiles.ParsePrintedProfileList` | bin/shellkeeper.py:114-119 | parsing the list gsettings prints gives back its UUIDs, the empty list `@as []` included |
| `Metadata.Lookup` | bin/shellkeeper.py:62-64 | `get` returns the stored record, or the empty record for an unknown name |
| `Metadata.Load` | bin/shellkeeper.py:33-41 | `_load`: a missing or unreadable file gives the empty store, a written one its snapshot; the constructor row states this |
| `Metadata.Upsert` | bin/shellkeeper.py:48-60 | `set` adds only the key `name` and keeps every other record. It keeps an existing `created` and sets it to now only for a new name. It always sets `last_attached` to now, and overwrites a profile field only when that argument is given. The record is never empty |
| `Metadata.CreatedIsNeverOverwritten` | bin/shellkeeper.py:51-54 | a second `set` of the same name keeps the first one's `created` |
| `Metadata.Drop` | bin/shellkeeper.py:66-70 | `remove` deletes exactly that key and keeps every other record |
| `Metadata.RemoveIsIdempotent` | bin/shellkeeper.py:66-70 | removing twice is removing once |
| `Metadata.Restrict` | bin/shellkeeper.py:76-84 | `clean` keeps exactly the keys in `active`, with their records unchanged |
| `Metadata.SessionMetadata.constructor` | bin/shellkeeper.py:28-41 | the store is what the file holds; a missing or unreadable file loads as empty |
| `Metadata.SessionMetadata.Set` | bin/shellkeeper.py:48-60 | the new store is `Upsert` of the old one, and the file holds it |
| `Metadata.SessionMetadata.Get` | bin/shellkeeper.py:62-64 | returns the record, or the empty record, without changing anything |
| `Metadata.SessionMetadata.Remove` | bin/shellkeeper.py:66-70 | the new store is `Drop` of the old one; the file is rewritten only if the name was present |
| `Metadata.SessionMetadata.ListAll` | bin/shellkeeper.py:72-74 | the store returned is the one the file holds |
| `Metadata.SessionMetadata.Clean` | bin/shellkeeper.py:76-84 | the new store keeps exactly the active names, unchanged. The names returned are exactly the old names not active, each once. The file is rewritten only if something was removed |
| `Registry.ListingClassifiesEachSocketOnce` | bin/shellkeeper.py:332-352 | every `*.sock` entry is either live or dead, never both |
| `Registry.IsAlive` | bin/shellkeeper.py:302-325 | `is_session_alive`: the entry exists, is a socket and accepts a connection; `ListingClassifiesEachSocketOnce` and `Reap` state how listing uses it |
| `Registry.LiveSockets` | bin/shellkeeper.py:332-335 | the listed `*.sock` entries whose probe succeeds; `ListingIsPartitioned` states that they and `DeadSockets` split the listing |
| `Registry.DeadSockets` | bin/shellkeeper.py:332-352 | the listed `*.sock` entries whose probe fails, the ones a reaping listing unlinks; `ListingClassifiesEachSocketOnce` and `Reap` state their use |
| `Registry.ViewOf` | bin/shellkeeper.py:336-347 | one listing entry, joined with the record under the socket's stem; `LiveViewsNameLiveSessions` and `InfoAgreesWithListing` state its properties |
| `Registry.Reap` | bin/shellkeeper.py:336-357 | reaping unlinks exactly the dead sockets and removes exactly the records under their stems. It keeps every other handle and record. No dead socket is left, and the live sockets are as before |
| `Registry.DeadAndLiveNamesDiffer` | bin/shellkeeper.py:332-357 | without a `.sock` entry, no dead socket's name is a live session's name |
| `Registry.ListingIsPartitioned` | bin/shellkeeper.py:332-352 | the live and the dead entries are disjoint and together are all `*.sock` entries |
| `Registry.PartsOfPartition` | bin/shellkeeper.py:332-352 | parts of two disjoint sets that together make both up are the sets |
| `Registry.StemsOfAddOne` | bin/shellkeeper.py:348 | one more dead socket adds its stem to the dead names |
| `Registry.ReapKeepsLiveViews` | bin/shellkeeper.py:327-359 | without a `.sock` entry, a reaping listing leaves live sessions and their records as they were, so the next listing reports the same sessions |
| `Registry.ReapIsIdempotent` | bin/shellkeeper.py:327-359 | reaping twice is reaping once |
| `Registry.InsertByRecency` | bin/shellkeeper.py:359 | inserting into a list sorted most recent first keeps it sorted and adds exactly that view |
| `Registry.ConsKeepsSorted` | bin/shellkeeper.py:359 | a view at least as recent as the head of a listing sorted most recent first extends it, still sorted |
| `Registry.SortByRecency` | bin/shellkeeper.py:359 | the result is sorted most recent first and is a permutation of the input |
| `Registry.ViewsOf` | bin/shellkeeper.py:336-347 | one view per socket |
| `Registry.ViewsOfAppend` | bin/shellkeeper.py:347 | appending a socket appends its view |
| `Registry.ViewsOfMembers` | bin/shellkeeper.py:336-347 | a view is among the views of some sockets exactly when it is the view of one of them |
| `Registry.DistinctCount` | bin/shellkeeper.py:332 | a sequence without repeats has as many members as elements |
| `Registry.ViewsOfLiveSockets` | bin/shellkeeper.py:332-347 | the views of the live sockets, each taken once, are exactly the listing, one entry per live socket |
| `Registry.LiveViewsNameLiveSessions` | bin/shellkeeper.py:336-347 | the listing's names are the stems of the live sockets, and it has one entry per live socket |
| `Registry.ViewsCount` | bin/shellkeeper.py:336-347 | distinct sockets give distinct views |
| `Registry.AfterMultiplexer` | bin/shellkeeper.py:458-459 | the multiplexer touches only the session's own socket, which remains exactly when the session was detached rather than ended |
| `Registry.CurrentProfile` | bin/shellkeeper.py:365-368 | the calling session's record as a profile choice, only when the session is named and its record is not empty; `Registry.CreateSession` states how it is used |
| `Registry.CreateSession` | bin/shellkeeper.py:361-409 | a truthy given name is used as is, and otherwise the name is `generate_session_name` of the resolved profile. Creation succeeds exactly when the chosen name has no socket. A conflict changes nothing, `created` included. On success the directory is unchanged and the record is `set` with the resolved profile. The profile is the `--match`-filled choice resolved by precedence |
| `Registry.SecondCreateIsRefused` | bin/shellkeeper.py:402-409 | once the first creation's socket exists, creating the same name is refused and leaves the state, and so the first record with its `created`, unchanged |
| `Registry.UnnamedSessionGetsGeneratedName` | bin/shellkeeper.py:399-400 | a session created without a name under the default template gets `<profile slug>-<date>-<time>-<random>`, each part readable back, and a listing finds it under that name |
| `Registry.Attach` | bin/shellkeeper.py:468-484 | attach succeeds exactly when the socket is live. A missing socket changes nothing. A dead one loses its socket and its record. A live one gets `last_attached` refreshed and keeps its profile fields and `created`. Every other session is unchanged |
| `Registry.Kill` | bin/shellkeeper.py:502-513 | kill succeeds exactly when the socket exists, live or dead. It removes the socket and the record, and changes nothing else |
| `Registry.Rename` | bin/shellkeeper.py:515-538 | succeeds exactly when the old socket exists and the new one does not; on failure nothing changes. The handle moves to the new name. A non-empty old record leaves the old key and reappears under the new one with its profile fields, refreshed timestamps, and every other record unchanged. An empty one leaves the store unchanged |
| `Registry.RenameThereAndBack` | bin/shellkeeper.py:515-538 | renaming there and back succeeds and restores the directory; a non-empty record's profile fields come back under the old name, with `created` reset to the second rename |
| `Registry.KilledSessionIsNotFound` | bin/shellkeeper.py:502-513 | after a kill, attaching finds nothing and changes nothing, and `info` reports nothing |
| `Registry.ReapedSessionIsNotFound` | bin/shellkeeper.py:468-480 | after a listing reaped a dead session, attaching to it finds nothing and changes nothing: a dead session is never revived |
| `Registry.Info` | bin/shellkeeper.py:540-565 | `info` is absent exactly when the socket is; otherwise it gives the probe result and the record's fields, `None` for missing ones |
| `Registry.InfoAgreesWithListing` | bin/shellkeeper.py:540-565 | a session `info` reports alive is listed under its name with the same profile and `created` |
| `Registry.CleanAll` | bin/shellkeeper.py:833-837 | after `clean` no dead socket is left and the directory is the old one less its dead sockets. The records kept are exactly those not reaped whose names a listing reports, each unchanged. The live sockets are as before |
| `Registry.CleanAllKeepsLiveRecords` | bin/shellkeeper.py:833-837 | without the bare `.sock` entry, `clean` keeps exactly the records of the sessions a listing reports, unchanged |
| `Registry.CleanAllIsIdempotent` | bin/shellkeeper.py:833-837 | `clean` twice is `clean` once |
| `Registry.MetadataClean` | bin/shellkeeper.py:917-920 | `metadata clean` leaves the directory alone, keeps exactly the records of listed names, and reports exactly the others |
| `Registry.MetadataCleanDropsDeadRecords` | bin/shellkeeper.py:917-920 | the record of a dead session whose socket is still there is removed and reported |
| `Keeper.ShellKeeper.constructor` | bin/shellkeeper.py:181-187 | the keeper starts from the directory as found and the store as loaded |
| `Keeper.ShellKeeper.ListSessions` | bin/shellkeeper.py:327-359 | the result is sorted most recent first and holds each live session's view exactly once. With `cleanDead` the new state is `Reap` of the old, and otherwise nothing changes |
| `Keeper.ShellKeeper.ProbeSockets` | bin/shellkeeper.py:332-352 | the loop yields exactly the live views, each read before any record is removed, and the stems of the dead sockets; with `cleanDead` exactly the dead sockets are unlinked |
| `Keeper.ShellKeeper.ForgetSessions` | bin/shellkeeper.py:354-357 | the store loses exactly the given names |
| `Keeper.ShellKeeper.CreateSession` | bin/shellkeeper.py:361-459 | the outcome, the name and the store are those of `Registry.CreateSession`; the multiplexer runs only on success, through `RunMultiplexer`, whose precondition is that the record is already written |
| `Keeper.ShellKeeper.RunMultiplexer` | bin/shellkeeper.py:459 | runs only once the session's record is in the store and its file; afterwards the directory differs only at the session's socket, by what dtach left there |
| `Keeper.ShellKeeper.AttachSession` | bin/shellkeeper.py:468-500 | the outcome and the store are those of `Registry.Attach`, and the multiplexer runs, through `RunMultiplexer`, only on success and after the record is refreshed |
| `Keeper.ShellKeeper.KillSession` | bin/shellkeeper.py:502-513 | the outcome and the new state are those of `Registry.Kill` |
| `Keeper.ShellKeeper.RenameSession` | bin/shellkeeper.py:515-538 | the outcome and the new state are those of `Registry.Rename` |
| `Keeper.ShellKeeper.GetSessionInfo` | bin/shellkeeper.py:540-565 | the result is `Registry.Info` of the current state, which is not changed |
| `Keeper.ShellKeeper.CleanCommand` | bin/shellkeeper.py:833-837 | the new state is `Registry.CleanAll` of the old |
| `Keeper.ShellKeeper.MetadataCleanCommand` | bin/shellkeeper.py:917-920 | the new state is `Registry.MetadataClean` of the old, and the names reported are exactly the removed ones |
| `Keeper.ShellKeeper.AttachLast` | bin/shellkeeper.py:839-845 | with no live session nothing is attached and the state is the reaped one. Otherwise the session attached has the latest modification time among the live ones, the new state is `Registry.Attach` of the reaped state followed by the multiplexer, and the attach succeeds whenever that socket is not the bare `.sock`. When the bare `.sock` is the newest, its stem `.sock` is attached, which goes to the socket `.sock.sock` and succeeds exactly when that one is live |

## Left out

- Reading and writing JSON: the metadata file is the ghost `file` field. A
  written file holds exactly the store, and one that cannot be opened or is
  not JSON loads as empty. Other keys a record may carry, such as `note`, are
  not modelled.
- Two kinds of metadata file are outside the model: one that is not valid
  UTF-8, whose `UnicodeDecodeError` is not caught, so the program stops at
  start-up; and one holding JSON that is not an object (such as `[]`), which
  the source loads as it is.
- The gsettings subprocess calls behind `find_profile_by_name`,
  `find_profile_by_uuid`, `get_profile_name` and `get_default_profile` are
  process I/O. The two lookups are function parameters; `LookupsWellFormed`
  says what the real ones return.
- Socket probing (`stat`, `S_ISSOCK`, the non-blocking `connect`) is operating
  system I/O. A handle's `isSocket` and `accepting` fields stand for its
  outcome, and a probe that raises `OSError` counts as not accepting.
- The socket's modification time is the local wall-clock reading that
  `datetime.fromtimestamp` gives, as an integer number of seconds. The source
  sorts on its `%Y-%m-%d %H:%M:%S` text, which orders the same way for
  four-digit years. The conversion from the file system's timestamp to local
  time is left out, so the model does not capture that across a daylight-saving
  fall-back a later modification can read as an earlier time. For the same
  reason `get_session_info`'s `last_modified`, in the source an ISO string
  with microseconds or `None` when `stat` raises, is in the model this whole
  second reading, and the failing `stat` is not modelled.
- The session directory is a flat map keyed by `<name>.sock`, each entry either
  a socket or some other file. Entries of other kinds are outside it:
  - a name holding `/` puts its socket in a subdirectory that `glob("*.sock")`
    never lists, where the model lists it;
  - a dangling symbolic link `x.sock` is listed by `glob` while `exists()` is
    false for it. So the source's attach and kill report it as not found and
    leave it, where the model's entry exists and is reaped or killed; the
    source's rename onto it succeeds, where the model refuses it; the source's
    create of `x` writes the record and runs dtach, where the model reports a
    conflict; and the source's info on `x` gives nothing, where the model gives
    a result;
  - a directory named `x.sock` is listed by `glob` and probes as dead, and
    `unlink()` on it raises `IsADirectoryError` (even with `missing_ok`) in the
    reaping listing, in attach and in kill, so the program stops there, where
    the model removes the entry and goes on.
- `datetime.now`, `strftime` and `random.choices` are parameters: `now` and a
  `Clock`. The calling session's name from `SHELLKEEPER_SESSION` is a parameter
  too.
- The multiplexer itself (dtach, the wrapper script, the environment it is
  given) is left out. Its only modelled effect is what it leaves at the
  socket's path.
- `restore_session`, `restore_all_sessions`, `open_terminal`, `setup_autostart`,
  the dependency, backend and linger checks, configuration loading and saving,
  argparse and all printing are left out. They are process spawning, desktop
  integration and I/O.
- Notes, export/import, idle cleanup and pattern kills have no code in
  `bin/shellkeeper.py`, so nothing models them.
- Concurrent invocations racing on the metadata file or the directory are not
  modelled; every operation is one sequential step.
- The order of `glob` results is not modelled: the probe loop takes the
  entries in any order.
- `Metadata.SessionMetadata.Clean` returns the removed names in an unspecified
  order, where the source uses the store's insertion order, which the model
  does not keep.
- `Naming.Lower` folds only `A`–`Z`. Python's `str.lower` also folds other
  letters. Most of them `slugify` then replaces by a hyphen all the same, but a
  few fold into `[a-z]`: U+212A KELVIN SIGN becomes `k`, so the source's slug of
  it is `k` where the model's is `default`, and U+0130 becomes `i` followed by a
  combining dot.
- `Naming.FormatName` takes the `session_name_format` template already split
  into literal text and the four fields. `str.format`'s parsing of the
  template, and its errors on unknown fields, are left out.
- `Keeper.ShellKeeper.ListSessions` states its result as a set of views plus a
  count, not a particular order of equally recent sessions, because that order
  follows the unmodelled `glob` order.
