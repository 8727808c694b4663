/**
 Registering the `plur` server in a file another program also writes, without a lock. A step is one file-system
 call; before each the other program may write any number of times, and each may fail.
 */
module ClaudeUserConfig {
  import opened Wrappers

  // ----- the document and its edit

  type Members = map<string, Json>

  datatype Json = Scalar(text: string) | List(items: seq<Json>) | Object(members: Members)

  const SERVERS := "mcpServers"
  const PLUR := "plur"

  /** `mcpServers`, where there is one, is an object; `parse` refuses the rest. */
  predicate WellFormed(config: Members) {
    SERVERS in config ==> config[SERVERS].Object?
  }

  function ServersOf(config: Members): Members
    requires WellFormed(config)
  {
    if SERVERS in config then config[SERVERS].members else map[]
  }

  function WithPlur(config: Members, entry: Json): (c: Members)
    requires WellFormed(config)
    ensures WellFormed(c) && ServersOf(c) == ServersOf(config)[PLUR := entry]
  {
    config[SERVERS := Object(ServersOf(config)[PLUR := entry])]
  }

  /**
   What the caller registers. `heal` gives the healed config and a label, empty when it found nothing to do;
   `legacy` is the entry of an older location, if that is an object.
   */
  datatype Options = Options(entry: Json, heal: Members -> (Members, string), legacy: Option<Json>)

  /** The two configs differ in nothing but the entry of `plur`. */
  predicate OnlyPlurDiffers(a: Members, b: Members) {
    && WellFormed(a) && WellFormed(b)
    && (forall k :: k in a.Keys + b.Keys && k != SERVERS ==> k in a && k in b && a[k] == b[k])
    && (forall k :: k in ServersOf(a).Keys + ServersOf(b).Keys && k != PLUR ==>
          k in ServersOf(a) && k in ServersOf(b) && ServersOf(a)[k] == ServersOf(b)[k])
  }

  /** Healing touches the entry of `plur` only and keeps it there; without a label it touches nothing. */
  ghost predicate GoodOptions(o: Options) {
    forall c :: WellFormed(c) && PLUR in ServersOf(c) ==>
      && OnlyPlurDiffers(c, o.heal(c).0) && PLUR in ServersOf(o.heal(c).0)
      && (o.heal(c).1 == "" ==> o.heal(c).0 == c)
  }

  datatype Status = Registered | Moved | Healed | Already

  datatype Edit = Edit(changed: bool, status: Status, note: string, config: Members)

  /** What `apply` makes of a config. */
  function Applied(config: Members, o: Options): Edit
    requires WellFormed(config)
  {
    if PLUR in ServersOf(config) then
      var (healed, note) := o.heal(config);
      if note != "" then Edit(true, Healed, note, healed) else Edit(false, Already, "", healed)
    else
      match o.legacy
      case Some(entry) =>
        var (healed, note) := o.heal(WithPlur(config, entry));
        Edit(true, Moved, note, healed)
      case None => Edit(true, Registered, "", WithPlur(config, o.entry))
  }

  lemma WithPlurDiffersThere(config: Members, entry: Json)
    requires WellFormed(config)
    ensures OnlyPlurDiffers(config, WithPlur(config, entry)) && PLUR in ServersOf(WithPlur(config, entry))
  {
  }

  lemma OnlyPlurTransitive(a: Members, b: Members, c: Members)
    requires OnlyPlurDiffers(a, b) && OnlyPlurDiffers(b, c)
    ensures OnlyPlurDiffers(a, c)
  {
  }

  lemma OnlyPlurReflexive(a: Members)
    requires WellFormed(a)
    ensures OnlyPlurDiffers(a, a)
  {
  }

  /** Whatever the edit, `plur` ends up registered and every other key and server is as it was. */
  lemma AppliedTouchesPlurOnly(config: Members, o: Options)
    requires WellFormed(config) && GoodOptions(o)
    ensures var e := Applied(config, o);
      && WellFormed(e.config) && OnlyPlurDiffers(config, e.config) && PLUR in ServersOf(e.config)
      && (!e.changed <==> e.status == Already) && (!e.changed ==> e.config == config)
  {
    hide WithPlur;
    if PLUR !in ServersOf(config) {
      match o.legacy
      case Some(entry) =>
        var moved := WithPlur(config, entry);
        WithPlurDiffersThere(config, entry);
        OnlyPlurTransitive(config, moved, o.heal(moved).0);
      case None => WithPlurDiffersThere(config, o.entry);
    } else {
      OnlyPlurReflexive(config);
    }
  }

  /** An entry is only ever added where there was none, and it is the older location's where there is one. */
  lemma WhichEntryIsAdded(config: Members, o: Options)
    requires WellFormed(config) && GoodOptions(o)
    ensures var e := Applied(config, o);
      && (e.status.Registered? || e.status.Moved? <==> PLUR !in ServersOf(config))
      && (e.status.Moved? <==> PLUR !in ServersOf(config) && o.legacy.Some?)
      && (e.status.Registered? ==> ServersOf(e.config)[PLUR] == o.entry)
      && (e.status.Moved? && e.note == "" ==> ServersOf(e.config)[PLUR] == o.legacy.value)
  {
    hide OnlyPlurDiffers;
    AppliedTouchesPlurOnly(config, o);
  }

  /**
   What is written: the healed config where there was an entry and healing found something, the healed config with the
   older location's entry where there was none, and else the config with the caller's entry.
   */
  lemma WhatIsWritten(config: Members, o: Options)
    requires WellFormed(config)
    ensures var e := Applied(config, o);
      var servers := if SERVERS in config then config[SERVERS].members else map[];
      if PLUR in servers then
        && (o.heal(config).1 != "" ==> e == Edit(true, Healed, o.heal(config).1, o.heal(config).0))
        && (o.heal(config).1 == "" ==> !e.changed && e.status == Already)
      else if o.legacy.Some? then
        var moved := config[SERVERS := Object(servers[PLUR := o.legacy.value])];
        e == Edit(true, Moved, o.heal(moved).1, o.heal(moved).0)
      else e == Edit(true, Registered, "", config[SERVERS := Object(servers[PLUR := o.entry])])
  {
  }

  /** Edited once, a config needs no second edit exactly when healing finds nothing more to do in it. */
  lemma SecondEditIsIdle(config: Members, o: Options)
    requires WellFormed(config) && GoodOptions(o)
    ensures WellFormed(Applied(config, o).config)
    ensures !Applied(Applied(config, o).config, o).changed <==> o.heal(Applied(config, o).config).1 == ""
  {
    AppliedTouchesPlurOnly(config, o);
  }

  class Config {
    var members: Members

    constructor (members: Members)
      ensures this.members == members
    {
      this.members := members;
    }

    /** `apply`: edit the config in place. */
    method Apply(o: Options) returns (changed: bool, status: Status, note: string)
      requires WellFormed(members)
      modifies this
      ensures Edit(changed, status, note, members) == Applied(old(members), o)
    {
      var servers := if SERVERS in members then members[SERVERS].members else map[];
      if PLUR in servers {
        var (healed, found) := o.heal(members);
        members := healed;
        if found != "" {
          return true, Healed, found;
        }
        return false, Already, "";
      }
      if o.legacy.Some? {
        servers := servers[PLUR := o.legacy.value];
        members := members[SERVERS := Object(servers)];
        var (healed, found) := o.heal(members);
        members := healed;
        return true, Moved, found;
      }
      servers := servers[PLUR := o.entry];
      members := members[SERVERS := Object(servers)];
      return true, Registered, "";
    }
  }

  // ----- the file, and what becomes of it

  datatype Stat = Stat(size: int, mtime: int, inode: int, links: int)

  datatype File = File(bytes: Bytes, stat: Stat)

  /** The other program leaves this file, or none; or a write of this run takes the file's place. */
  datatype Event = Foreign(file: Option<File>) | Published(written: File)

  function After(start: Option<File>, events: seq<Event>): Option<File> {
    if events == [] then start
    else
      match events[|events| - 1]
      case Foreign(file) => file
      case Published(written) => Some(written)
  }

  predicate OnlyForeign(events: seq<Event>) {
    forall e :: e in events ==> e.Foreign?
  }

  /** Reading and writing the document; `parse` also fails on bytes that are not UTF-8. */
  datatype Codec = Codec(parse: Bytes -> Result<Members, string>, serialize: Members -> Bytes)

  ghost predicate GoodCodec(c: Codec) {
    && (forall b :: c.parse(b).Success? ==> WellFormed(c.parse(b).value))
    && (forall m :: WellFormed(m) ==> c.parse(c.serialize(m)) == Success(m))
  }

  // ----- what a run may have done

  /** The run wrote the file once, from `seen`: what was there when it last looked, if anything. */
  ghost predicate Wrote(start: Option<File>, events: seq<Event>, c: Codec, o: Options, seen: Option<File>, e: Edit)
    requires GoodCodec(c)
  {
    exists look, write ::
      && 0 <= look <= write < |events| && events[write].Published?
      && OnlyForeign(events[..write]) && OnlyForeign(events[write + 1..])
      && After(start, events[..look]) == seen
      && (seen.Some? ==> c.parse(seen.value.bytes).Success?)
      && e == Applied(if seen.Some? then c.parse(seen.value.bytes).value else map[], o)
      && (seen.None? ==> look == write)
      && events[write].written.bytes == c.serialize(e.config)
  }

  /**
   The file a run wrote reads back as a config with `plur` registered and every other key and server as they
   were at the last look: whatever the other program wrote before it is kept.
   */
  lemma OthersKeysSurvive(start: Option<File>, events: seq<Event>, c: Codec, o: Options, seen: File, e: Edit)
    requires GoodCodec(c) && GoodOptions(o) && Wrote(start, events, c, o, Some(seen), e)
    ensures exists look, write ::
      && 0 <= look <= write < |events| && OnlyForeign(events[..write]) && events[write].Published?
      && After(start, events[..look]) == Some(seen)
      && c.parse(seen.bytes).Success? && c.parse(events[write].written.bytes).Success?
      && OnlyPlurDiffers(c.parse(seen.bytes).value, c.parse(events[write].written.bytes).value)
      && PLUR in ServersOf(c.parse(events[write].written.bytes).value)
  {
    hide OnlyPlurDiffers, Applied, OnlyForeign, After;
    AppliedTouchesPlurOnly(c.parse(seen.bytes).value, o);
    var look, write :|
      && 0 <= look <= write < |events| && events[write].Published? && OnlyForeign(events[..write])
      && After(start, events[..look]) == Some(seen) && events[write].written.bytes == c.serialize(e.config);
    assert c.parse(events[write].written.bytes) == Success(e.config);
  }

  /**
   The file that a run's write replaced is the one it last looked at, whose bytes are saved, or one that the other
   program left between that look and the write.
   */
  lemma LostOnlyAfterTheLook(start: Option<File>, events: seq<Event>, c: Codec, o: Options, seen: Option<File>, e: Edit)
    requires GoodCodec(c) && Wrote(start, events, c, o, seen, e)
    ensures exists look, write ::
      && 0 <= look <= write < |events| && events[write].Published? &&
         events[write].written.bytes == c.serialize(e.config)
      && After(start, events[..look]) == seen
      && (After(start, events[..write]) == seen || Foreign(After(start, events[..write])) in events[look..write])
  {
    hide Applied;
    var look, write :|
      && 0 <= look <= write < |events| && events[write].Published? && OnlyForeign(events[..write])
      && After(start, events[..look]) == seen && events[write].written.bytes == c.serialize(e.config);
    if look < write {
      assert events[..write][write - 1] == events[write - 1] == events[look..write][write - 1 - look];
      assert events[write - 1] in events[..write];
    }
  }

  datatype Reason =
    | Dangling | NotCreated | NotWritable | Unreadable | Shared | BadContent(error: string) | NotWritten | Busy

  datatype Outcome = Done(status: Status) | Refused(why: Reason)

  /** What the run has to do when nothing fails and nobody else writes. */
  ghost function Undisturbed(start: Option<File>, linked: bool, c: Codec, o: Options): Outcome
    requires GoodCodec(c)
  {
    match start
    case None => if linked then Refused(Dangling) else Done(Applied(map[], o).status)
    case Some(f) =>
      if f.stat.links > 1 then Refused(Shared)
      else
        match c.parse(f.bytes)
        case Failure(error) => Refused(BadContent(error))
        case Success(config) => Done(Applied(config, o).status)
  }

  /** A link that leads nowhere, a file with other names and one that does not parse are refused; the rest is edited. */
  lemma UndisturbedIs(f: File, linked: bool, c: Codec, o: Options)
    requires GoodCodec(c)
    ensures Undisturbed(None, true, c, o) == Refused(Dangling)
    ensures Undisturbed(None, false, c, o) == Done(Applied(map[], o).status)
    ensures f.stat.links > 1 ==> Undisturbed(Some(f), linked, c, o) == Refused(Shared)
    ensures f.stat.links <= 1 && c.parse(f.bytes).Failure? ==>
      Undisturbed(Some(f), linked, c, o) == Refused(BadContent(c.parse(f.bytes).error))
    ensures f.stat.links <= 1 && c.parse(f.bytes).Success? ==>
      Undisturbed(Some(f), linked, c, o) == Done(Applied(c.parse(f.bytes).value, o).status)
  {
    hide Applied;
  }

  ghost predicate HadNothingToDo(seen: Option<File>, c: Codec, o: Options)
    requires GoodCodec(c)
  {
    seen.Some? && c.parse(seen.value.bytes).Success? && !Applied(c.parse(seen.value.bytes).value, o).changed
  }

  /** A run that wrote nothing, and what it says. */
  ghost predicate Kept(start: Option<File>, events: seq<Event>, c: Codec, o: Options, r: Outcome)
    requires GoodCodec(c)
  {
    && OnlyForeign(events)
    && (r.Done? ==>
          && r.status == Already
          && exists look :: 0 <= look <= |events| && HadNothingToDo(After(start, events[..look]), c, o))
  }

  function Newest(backups: seq<Bytes>, keep: nat): seq<Bytes> {
    if |backups| <= keep then backups else backups[|backups| - keep..]
  }

  /** The backups kept are the last ones, as many as may be, so the one just saved is among them. */
  lemma LastBackupsAreKept(backups: seq<Bytes>, keep: nat)
    ensures exists n :: 0 <= n <= |backups| && Newest(backups, keep) == backups[n..]
    ensures |Newest(backups, keep)| == if |backups| < keep then |backups| else keep
    ensures keep > 0 && backups != [] ==> backups[|backups| - 1] in Newest(backups, keep)
  {
    assert backups == backups[0..];
  }

  /** The backups kept: the bytes that were replaced, among the newest. */
  function Backups(before: seq<Bytes>, seen: Option<File>, keep: nat): seq<Bytes> {
    match seen
    case None => before
    case Some(f) => Newest(before + [f.bytes], keep)
  }

  /** Everything a run may have done to the file and its backups, with what it reports. */
  ghost predicate Honest(start: Option<File>, events: seq<Event>, before: seq<Bytes>, backups: seq<Bytes>, c: Codec,
                         o: Options,
                         keep: nat, r: Outcome)
    requires GoodCodec(c)
  {
    if r.Refused? || r.status == Already then Kept(start, events, c, o, r) && backups == before
    else
      exists seen, e :: Wrote(start, events, c, o, seen, e) && e.changed && e.status == r.status &&
          backups == Backups(before, seen, keep)
  }

  /** A run that refused or found nothing to do has written neither the file nor a backup. */
  lemma WhatAnIdleRunDid(start: Option<File>, events: seq<Event>, before: seq<Bytes>, backups: seq<Bytes>, c: Codec,
                         o: Options, keep: nat, r: Outcome)
    requires GoodCodec(c) && Honest(start, events, before, backups, c, o, keep, r)
    requires r.Refused? || r.status == Already
    ensures backups == before && forall e :: e in events ==> e.Foreign?
    ensures r.Done? ==> exists look ::
      && 0 <= look <= |events| && After(start, events[..look]).Some?
      && var seen := c.parse(After(start, events[..look]).value.bytes);
        seen.Success? && !Applied(seen.value, o).changed
  {
    hide Applied, After;
  }

  lemma OthersAreForeign(events: seq<Event>, write: nat, i: nat)
    requires write < |events| && OnlyForeign(events[..write]) && OnlyForeign(events[write + 1..])
    requires i < |events| && i != write
    ensures events[i].Foreign?
  {
    assert if i < write then events[i] in events[..write] else events[i] in events[write + 1..] by {
      assert i > write ==> events[write + 1..][i - write - 1] == events[i];
    }
  }

  /** Any other run wrote once: the edit of what it last saw, whose bytes are saved as the last backup. */
  lemma WhatAWritingRunDid(start: Option<File>, events: seq<Event>, before: seq<Bytes>, backups: seq<Bytes>, c: Codec,
                           o: Options, keep: nat, r: Outcome)
    requires GoodCodec(c) && Honest(start, events, before, backups, c, o, keep, r)
    requires r.Done? && r.status != Already
    ensures exists look, write, config ::
      && 0 <= look <= write < |events| && events[write].Published?
      && (forall i :: 0 <= i < |events| && i != write ==> events[i].Foreign?)
      && WellFormed(config) && Applied(config, o).changed && Applied(config, o).status == r.status
      && events[write].written.bytes == c.serialize(Applied(config, o).config)
      && var seen := After(start, events[..look]);
        if seen.None? then config == map[] && look == write && backups == before
        else c.parse(seen.value.bytes) == Success(config) && backups == Newest(before + [seen.value.bytes], keep)
  {
    hide Newest, Applied, After, OnlyForeign;
    var seen, e :| Wrote(start, events, c, o, seen, e) && e.changed && e.status == r.status &&
      backups == Backups(before, seen, keep);
    var config := if seen.Some? then c.parse(seen.value.bytes).value else map[];
    var look, write :|
      && 0 <= look <= write < |events| && events[write].Published?
      && OnlyForeign(events[..write]) && OnlyForeign(events[write + 1..])
      && After(start, events[..look]) == seen && (seen.None? ==> look == write)
      && events[write].written.bytes == c.serialize(e.config);
    forall i | 0 <= i < |events| && i != write
      ensures events[i].Foreign?
    {
      OthersAreForeign(events, write, i);
    }
    assert e == Applied(config, o);
  }

  // ----- the file system

  /** Whether creating a file found its name free. */
  datatype Creation = Created | Taken | Failed

  /**
   The file's directory as this run sees it. Before call n the other program has left the files
   `others(n)` one after another; the call fails if `fails(n)`; a file it writes gets the stat `stamp(n)`.
   */
  class FileSystem {
    const start: Option<File>
    const linked: bool
    const others: nat -> seq<Option<File>>
    const fails: nat -> bool
    const stamp: nat -> Stat
    var file: Option<File>
    var clock: nat
    var backups: seq<Bytes>
    ghost var events: seq<Event>
    ghost var troubled: bool

    ghost predicate Valid()
      reads this
    {
      file == After(start, events)
    }

    constructor (start: Option<File>, linked: bool, others: nat -> seq<Option<File>>, fails: nat -> bool,
                 stamp: nat -> Stat,
                 backups: seq<Bytes>)
      ensures Valid() && events == [] && !troubled && this.start == start && this.linked == linked &&
        this.backups == backups
    {
      this.start, this.linked, this.others, this.fails, this.stamp := start, linked, others, fails, stamp;
      this.file, this.clock, this.backups := start, 0, backups;
      events, troubled := [], false;
    }

    /** Only the other program has been at the file since. */
    twostate predicate Waited()
      reads this
    {
      && old(events) <= events && (OnlyForeign(old(events)) ==> OnlyForeign(events)) && (old(troubled) ==> troubled)
      && (events == old(events) ==> file == old(file))
    }

    /** A file-system call begins: the other program has its turn, then the call may fail. */
    method Call() returns (ok: bool)
      requires Valid()
      modifies `file, `clock, `events, `troubled
      ensures Valid() && Waited() && (!ok ==> troubled)
    {
      var burst := others(clock);
      for i := 0 to |burst|
        invariant Valid() && Waited() && troubled == old(troubled)
      {
        file := burst[i];
        events := events + [Foreign(file)];
      }
      ok := !fails(clock);
      troubled := troubled || !ok;
      clock := clock + 1;
    }

    /** Whether the name is there, as a file or as a link. */
    method Lstat() returns (found: bool)
      requires Valid()
      modifies `file, `clock, `events, `troubled
      ensures Valid() && Waited() && (!troubled ==> (found <==> linked || file.Some?))
    {
      var ok := Call();
      found := ok && (linked || file.Some?);
    }

    method Exists() returns (found: bool)
      requires Valid()
      modifies `file, `clock, `events, `troubled
      ensures Valid() && Waited() && (!troubled ==> (found <==> file.Some?))
    {
      var ok := Call();
      found := ok && file.Some?;
    }

    /** The flag `wx`: write a file only where there is none, and no link. */
    method Create(bytes: Bytes) returns (made: Creation)
      requires Valid()
      modifies `file, `clock, `events, `troubled
      ensures Valid() && (old(troubled) ==> troubled)
      ensures !made.Created? ==> Waited()
      ensures made.Created? ==>
        var n := |events| - 1;
        && n >= |old(events)| && old(events) <= events[..n] && (OnlyForeign(old(events)) ==> OnlyForeign(events[..n]))
        && After(start, events[..n]) == None && events[n].Published? && events[n].written.bytes == bytes
      ensures made.Failed? ==> troubled
      ensures made.Created? ==> !linked
      ensures made.Taken? ==> linked || file.Some?
    {
      var ok := Call();
      if !ok {
        return Failed;
      }
      if linked || file.Some? {
        return Taken;
      }
      ghost var before := events;
      file := Some(File(bytes, stamp(clock)));
      events := events + [Published(file.value)];
      assert events[..|events| - 1] == before;
      made := Created;
    }

    /** The file behind the name, writable. */
    method Resolve() returns (ok: bool)
      requires Valid()
      modifies `file, `clock, `events, `troubled
      ensures Valid() && Waited() && (!troubled ==> (ok <==> file.Some?))
    {
      ok := Call();
      ok := ok && file.Some?;
    }

    method StatFile() returns (stat: Option<Stat>)
      requires Valid()
      modifies `file, `clock, `events, `troubled
      ensures Valid() && Waited()
      ensures stat.Some? ==> file.Some? && stat.value == file.value.stat
      ensures !troubled ==> (stat.Some? <==> file.Some?)
    {
      var ok := Call();
      stat := if ok && file.Some? then Some(file.value.stat) else None;
    }

    method Read() returns (bytes: Option<Bytes>)
      requires Valid()
      modifies `file, `clock, `events, `troubled
      ensures Valid() && Waited()
      ensures bytes.Some? ==> file.Some? && bytes.value == file.value.bytes
      ensures !troubled ==> (bytes.Some? <==> file.Some?)
    {
      var ok := Call();
      bytes := if ok && file.Some? then Some(file.value.bytes) else None;
    }

    /** Save bytes beside the file. */
    method SaveBackup(bytes: Bytes) returns (ok: bool)
      requires Valid()
      modifies this
      ensures Valid() && Waited() && (!ok ==> troubled)
      ensures backups == if ok then old(backups) + [bytes] else old(backups)
    {
      ok := Call();
      if ok {
        backups := backups + [bytes];
      }
    }

    /** Take back the backup just saved. */
    method DropBackup()
      requires Valid() && backups != []
      modifies `backups
      ensures backups == old(backups)[..|old(backups)| - 1]
    {
      backups := backups[..|backups| - 1];
    }

    /** `pruneBackups`: all but the newest go. */
    method PruneBackups(keep: nat)
      modifies `backups
      ensures backups == Newest(old(backups), keep)
    {
      var drop := if |backups| > keep then |backups| - keep else 0;
      backups := backups[drop..];
    }

    /** Put the temporary file in the file's place. */
    method Rename(bytes: Bytes) returns (ok: bool)
      requires Valid()
      modifies `file, `clock, `events, `troubled
      ensures Valid() && (old(troubled) ==> troubled)
      ensures !ok ==> Waited() && troubled
      ensures ok ==>
        var n := |events| - 1;
        && n >= |old(events)| && old(events) <= events[..n] && (OnlyForeign(old(events)) ==> OnlyForeign(events[..n]))
        && events[n].Published? && events[n].written.bytes == bytes
    {
      ok := Call();
      if ok {
        ghost var before := events;
        file := Some(File(bytes, stamp(clock)));
        events := events + [Published(file.value)];
        assert events[..|events| - 1] == before;
      }
    }
  }

  // ----- the run

  /** Nobody else wrote. */
  predicate Alone(events: seq<Event>) {
    forall e :: e in events ==> e.Published?
  }

  lemma FirstIn(events: seq<Event>)
    requires events != []
    ensures events[0] in events
  {
  }

  lemma NobodyWrote(events: seq<Event>)
    requires OnlyForeign(events) && Alone(events)
    ensures events == []
  {
    if events != [] {
      FirstIn(events);
    }
  }

  lemma NobodyBefore(before: seq<Event>, events: seq<Event>)
    requires OnlyForeign(before) && before <= events && Alone(events)
    ensures before == []
  {
    forall e | e in before
      ensures e in events
    {
      var i :| 0 <= i < |before| && before[i] == e;
      assert events[i] == e;
    }
    NobodyWrote(before);
  }

  lemma Quiet(events: seq<Event>)
    requires OnlyForeign(events)
    ensures Alone(events) ==> events == []
  {
    if Alone(events) {
      NobodyWrote(events);
    }
  }

  lemma Nothing(start: Option<File>)
    ensures OnlyForeign([]) && After(start, []) == start
  {
  }

  /** What one attempt has read, and what it wants to write instead. */
  datatype Plan = Plan(before: Stat, raw: Bytes, status: Status, text: Bytes)

  ghost predicate PlanFits(p: Plan, c: Codec, o: Options)
    requires GoodCodec(c)
  {
    && c.parse(p.raw).Success?
    && var e := Applied(c.parse(p.raw).value, o); e.changed && e.status == p.status && p.text == c.serialize(e.config)
  }

  lemma RefusalsKeep(start: Option<File>, c: Codec, o: Options)
    requires GoodCodec(c)
    ensures forall events, why :: OnlyForeign(events) ==> Kept(start, events, c, o, Refused(why))
  {
  }

  lemma NothingDone(start: Option<File>, events: seq<Event>, c: Codec, o: Options)
    requires GoodCodec(c) && OnlyForeign(events) && HadNothingToDo(After(start, events), c, o)
    ensures Kept(start, events, c, o, Done(Already))
  {
    assert events[..|events|] == events;
  }

  /** The first half of an attempt: read the file and edit what it says. */
  method MakePlan(fs: FileSystem, c: Codec, o: Options) returns (plan: Result<Plan, Outcome>)
    requires GoodCodec(c) && GoodOptions(o) && fs.Valid() && OnlyForeign(fs.events)
    modifies fs
    ensures fs.Valid() && fs.Waited() && OnlyForeign(fs.events) && fs.backups == old(fs.backups)
    ensures plan.Failure? ==> Kept(fs.start, fs.events, c, o, plan.error) && plan.error != Refused(Busy)
    ensures plan.Success? ==> PlanFits(plan.value, c, o)
    ensures fs.events == old(fs.events) && plan.Success? ==>
      fs.file.Some? && fs.file.value.stat == plan.value.before && fs.file.value.bytes == plan.value.raw
    ensures !fs.troubled && fs.events == old(fs.events) && old(fs.file).Some? ==>
      var wanted := Undisturbed(old(fs.file), fs.linked, c, o);
      if plan.Failure? then plan.error == wanted else wanted == Done(plan.value.status)
  {
    hide OnlyForeign, After, Kept, OnlyPlurDiffers, GoodOptions;
    RefusalsKeep(fs.start, c, o);
    var before := fs.StatFile();
    if before.None? {
      return Failure(Refused(Unreadable));
    }
    var raw := fs.Read();
    if raw.None? {
      return Failure(Refused(Unreadable));
    }
    if before.value.links > 1 {
      return Failure(Refused(Shared));
    }
    var parsed := c.parse(raw.value);
    if parsed.Failure? {
      return Failure(Refused(BadContent(parsed.error)));
    }
    AppliedTouchesPlurOnly(parsed.value, o);
    var config := new Config(parsed.value);
    var changed, status, note := config.Apply(o);
    if !changed {
      NothingDone(fs.start, fs.events, c, o);
      return Failure(Done(status));
    }
    plan := Success(Plan(before.value, raw.value, status, c.serialize(config.members)));
  }

  lemma OneWrite(start: Option<File>, events: seq<Event>, c: Codec, o: Options, seen: Option<File>, look: nat,
                 write: nat)
    requires GoodCodec(c) && look <= write && write == |events| - 1 && OnlyForeign(events[..write]) &&
      events[write].Published?
    requires seen == After(start, events[..look]) && (seen.Some? ==> c.parse(seen.value.bytes).Success?) &&
      (seen.None? ==> look == write)
    requires events[write].written.bytes ==
      c.serialize(Applied(if seen.Some? then c.parse(seen.value.bytes).value else map[], o).config)
    ensures Wrote(start, events, c, o, seen, Applied(if seen.Some? then c.parse(seen.value.bytes).value else map[], o))
  {
    assert events[write + 1..] == [];
  }

  /** The plan written over what was read at the look. */
  lemma HonestPlan(start: Option<File>, events: seq<Event>, before: seq<Bytes>, backups: seq<Bytes>, c: Codec,
                   o: Options, keep: nat, seen: Option<File>, look: nat, plan: Plan)
    requires GoodCodec(c) && PlanFits(plan, c, o) && look < |events| && OnlyForeign(events[..|events| - 1])
    requires events[|events| - 1].Published? && events[|events| - 1].written.bytes == plan.text
    requires seen.Some? && seen == After(start, events[..look]) && seen.value.bytes == plan.raw
    requires backups == Backups(before, seen, keep)
    ensures Honest(start, events, before, backups, c, o, keep, Done(plan.status))
  {
    hide Newest;
    OneWrite(start, events, c, o, seen, look, |events| - 1);
  }

  /** The second half: save a backup, look again, and rename if nothing has changed. */
  method CarryOut(fs: FileSystem, c: Codec, o: Options, plan: Plan, keep: nat) returns (res: Option<Outcome>)
    requires GoodCodec(c) && GoodOptions(o) && fs.Valid() && OnlyForeign(fs.events) && PlanFits(plan, c, o)
    modifies fs
    ensures fs.Valid() && old(fs.events) <= fs.events && (old(fs.troubled) ==> fs.troubled)
    ensures res.None? ==> OnlyForeign(fs.events) && fs.backups == old(fs.backups)
    ensures res.None? && old(fs.file).Some? ==>
      plan.before == old(fs.file.value.stat) && plan.raw == old(fs.file.value.bytes) ==>
        |fs.events| > |old(fs.events)|
    ensures res.Some? ==> Honest(fs.start, fs.events, old(fs.backups), fs.backups, c, o, keep, res.value)
    ensures res.Some? ==> res == Some(Done(plan.status)) || res == Some(Refused(NotWritten))
    ensures res == Some(Refused(NotWritten)) ==>
      OnlyForeign(fs.events) && (fs.troubled || fs.events != old(fs.events) || old(fs.file).None?)
  {
    hide OnlyForeign, After, GoodCodec, GoodOptions, PlanFits, Wrote, Newest;
    var written := fs.Call();
    if !written {
      return Some(Refused(NotWritten));
    }
    var saved := fs.SaveBackup(plan.raw);
    if !saved {
      return Some(Refused(NotWritten));
    }
    var now := fs.Read();
    if now.None? {
      fs.DropBackup();
      return Some(Refused(NotWritten));
    }
    ghost var looked, seen := fs.events, fs.file;
    var stat := fs.StatFile();
    if stat.None? {
      fs.DropBackup();
      return Some(Refused(NotWritten));
    }
    if now.value != plan.raw || stat.value.size != plan.before.size || stat.value.mtime != plan.before.mtime ||
       stat.value.inode != plan.before.inode {
      fs.DropBackup();
      return None;
    }
    var renamed := fs.Rename(plan.text);
    if !renamed {
      fs.DropBackup();
      return Some(Refused(NotWritten));
    }
    fs.PruneBackups(keep);
    assert looked <= fs.events && fs.events[..|looked|] == looked;
    HonestPlan(fs.start, fs.events, old(fs.backups), fs.backups, c, o, keep, seen, |looked|, plan);
    res := Some(Done(plan.status));
  }

  /** One attempt. Nothing when the file changed meanwhile, which only the other program can have done. */
  method Attempt(fs: FileSystem, c: Codec, o: Options, keep: nat) returns (res: Option<Outcome>)
    requires GoodCodec(c) && GoodOptions(o) && fs.Valid() && OnlyForeign(fs.events)
    modifies fs
    ensures fs.Valid() && old(fs.events) <= fs.events && (old(fs.troubled) ==> fs.troubled)
    ensures res.None? ==> OnlyForeign(fs.events) && fs.backups == old(fs.backups) && |fs.events| > |old(fs.events)|
    ensures res.Some? ==> Honest(fs.start, fs.events, old(fs.backups), fs.backups, c, o, keep, res.value)
    ensures res.Some? ==> res.value != Refused(Busy)
    ensures !fs.troubled && Alone(fs.events) && old(fs.file).Some? ==>
      res == Some(Undisturbed(old(fs.file), fs.linked, c, o))
  {
    hide OnlyForeign, Alone, After, GoodCodec, GoodOptions, PlanFits, Applied, Wrote;
    var plan := MakePlan(fs, c, o);
    if plan.Failure? {
      if Alone(fs.events) {
        NobodyWrote(fs.events);
      }
      return Some(plan.error);
    }
    ghost var mid := fs.events;
    res := CarryOut(fs, c, o, plan.value, keep);
    if Alone(fs.events) {
      NobodyBefore(mid, fs.events);
      if OnlyForeign(fs.events) {
        NobodyWrote(fs.events);
      }
    }
  }

  /** The file is not there: create it, unless somebody else does first. */
  method CreateNew(fs: FileSystem, c: Codec, o: Options, ghost keep: nat) returns (res: Option<Outcome>)
    requires GoodCodec(c) && GoodOptions(o) && fs.Valid() && OnlyForeign(fs.events)
    modifies fs
    ensures fs.Valid() && old(fs.events) <= fs.events && (old(fs.troubled) ==> fs.troubled)
    ensures res.None? ==> OnlyForeign(fs.events) && fs.backups == old(fs.backups)
    ensures res.None? && fs.events == old(fs.events) ==> fs.file == old(fs.file) && (fs.linked || fs.file.Some?)
    ensures res.Some? ==> Honest(fs.start, fs.events, old(fs.backups), fs.backups, c, o, keep, res.value)
    ensures res.Some? ==>
      res == Some(Done(Applied(map[], o).status)) || (res == Some(Refused(NotCreated)) && fs.troubled)
    ensures Alone(fs.events) && !fs.troubled && res.Some? ==> fs.start == None && !fs.linked
  {
    hide OnlyForeign, Alone, After, GoodCodec, GoodOptions;
    var config := new Config(map[]);
    var changed, status, note := config.Apply(o);
    var made := fs.Create(c.serialize(config.members));
    match made
    case Taken => res := None;
    case Failed => res := Some(Refused(NotCreated));
    case Created =>
      OneWrite(fs.start, fs.events, c, o, None, |fs.events| - 1, |fs.events| - 1);
      if Alone(fs.events) {
        NobodyBefore(fs.events[..|fs.events| - 1], fs.events);
        Nothing(fs.start);
      }
      res := Some(Done(status));
  }

  /**
   The whole run. It reports a write exactly when it made one; that write is the edit of what the file held
   at the last look, or of nothing where there was none; a refused run has left the file to the others.
   */
  method Register(fs: FileSystem, c: Codec, o: Options, maxAttempts: nat, keep: nat) returns (r: Outcome)
    requires GoodCodec(c) && GoodOptions(o) && fs.Valid() && fs.events == []
    modifies fs
    ensures fs.Valid()
    ensures Honest(fs.start, fs.events, old(fs.backups), fs.backups, c, o, keep, r)
    ensures r == Refused(Busy) ==> |fs.events| >= maxAttempts
    ensures !fs.troubled && Alone(fs.events) && maxAttempts > 0 ==> r == Undisturbed(fs.start, fs.linked, c, o)
  {
    hide OnlyForeign, Alone, After, GoodCodec, GoodOptions, Applied, Wrote;
    Nothing(fs.start);
    var link := fs.Lstat();
    if link {
      if fs.linked {
        var there := fs.Exists();
        if !there {
          Quiet(fs.events);
          return Refused(Dangling);
        }
      }
    } else {
      var created := CreateNew(fs, c, o, keep);
      if created.Some? {
        return created.value;
      }
    }
    var writable := fs.Resolve();
    if !writable {
      Quiet(fs.events);
      return Refused(NotWritable);
    }
    for attempt := 0 to maxAttempts
      invariant fs.events == [] && !fs.troubled ==> fs.start.Some?
      invariant fs.Valid() && OnlyForeign(fs.events) && fs.backups == old(fs.backups) && |fs.events| >= attempt
    {
      ghost var before := fs.events;
      var res := Attempt(fs, c, o, keep);
      if Alone(fs.events) {
        NobodyBefore(before, fs.events);
      }
      if res.Some? {
        return res.value;
      }
    }
    Quiet(fs.events);
    r := Refused(Busy);
  }
}
