/** The layered key-value memory: files per scope, written in the user's scope and read along the chain. */
module LayeredMemory {
  import opened Prelude
  import Text
  import SK = SessionKeys

  /** A `kv.json` file: a stored map, or content that does not parse. */
  datatype KvFile = Kvs(entries: map<string, string>) | Corrupt

  /** The path of a session directory below the workspace, component by component. */
  type Dir = seq<string>

  /** The `kv.json` files by their directories; a directory without one is absent. */
  type Disk = map<Dir, KvFile>

  type Answer = Result<Option<string>, string>

  // ---- one file memory, rooted at a directory ----

  function SessionDir(root: Dir, id: string): Dir {
    root + ["sessions", id]
  }

  /** Content that does not parse is replaced by a map with the new entry alone. */
  function WriteTo(disk: Disk, dir: Dir, key: string, value: string): Disk {
    var kvs := if dir in disk && disk[dir].Kvs? then disk[dir].entries else map[];
    disk[dir := Kvs(kvs[key := value])]
  }

  /** Content that does not parse is an error. */
  function Ask(disk: Disk, dir: Dir, key: string): Answer {
    if dir !in disk then Ok(None)
    else if disk[dir].Corrupt? then Err("invalid kv.json")
    else Ok(if key in disk[dir].entries then Some(disk[dir].entries[key]) else None)
  }

  function FileStore(disk: Disk, root: Dir, id: string, key: string, value: string): Disk {
    WriteTo(disk, SessionDir(root, id), key, value)
  }

  function FileGet(disk: Disk, root: Dir, id: string, key: string): Answer {
    Ask(disk, SessionDir(root, id), key)
  }

  /** The first answer if it is a value or an error, else the second. */
  function OrElse(first: Answer, second: Answer): Answer {
    if first.Err? || first.value.Some? then first else second
  }

  // ---- the layered memory ----

  function ScopeRoot(scope: string): Dir {
    var layer := SK.ScopeLayer(scope);
    if layer == "tenant" then ["tenants", scope]
    else if layer == "enterprise" then ["enterprises", scope]
    else if layer == "department" then ["departments", scope]
    else if layer == "role" then ["roles", scope]
    else if layer == "user" then ["users", scope]
    else []
  }

  function NamespaceForSession(session: string): Option<SK.SessionNamespace> {
    var k := SK.Parse(session);
    if k.Ok? then Some(SK.FromSessionKey(k.value)) else None
  }

  /** Writes go to the user's scope; an id that is no session key has a file of its own. */
  function Store(disk: Disk, session: string, key: string, value: string): Disk {
    var ns := NamespaceForSession(session);
    if ns.None? then FileStore(disk, [], session, key, value)
    else FileStore(disk, ScopeRoot(ns.value.user), ns.value.user, key, value)
  }

  function ScopeGet(disk: Disk, ns: SK.SessionNamespace, scope: string, key: string): Answer {
    if scope == ns.global then FileGet(disk, [], scope, key) else FileGet(disk, ScopeRoot(scope), scope, key)
  }

  /** The first scope that answers with a value or an error, else the session's own file. */
  function ChainGet(disk: Disk, ns: SK.SessionNamespace, chain: seq<string>, session: string, key: string): Answer {
    if chain == [] then FileGet(disk, [], session, key)
    else OrElse(ScopeGet(disk, ns, chain[0], key), ChainGet(disk, ns, chain[1..], session, key))
  }

  function Get(disk: Disk, session: string, key: string): Answer {
    var ns := NamespaceForSession(session);
    if ns.None? then FileGet(disk, [], session, key)
    else ChainGet(disk, ns.value, SK.VisibilityChain(ns.value), session, key)
  }

  // ---- what each session reads ----

  /** Where a session's writes go. */
  function WriteDir(session: string): Dir {
    var k := SK.Parse(session);
    if k.Err? then SessionDir([], session)
    else SessionDir(["users", "user:" + SK.UserKey(k.value)], "user:" + SK.UserKey(k.value))
  }

  /** The directories a session reads, in order: its user's, its tenant's, the global one, its own. */
  function ReadDirs(session: string): seq<Dir> {
    var k := SK.Parse(session);
    if k.Err? then
      [SessionDir([], session)]
    else
      var tenant := SK.TenantKey(k.value);
      [WriteDir(session)]
      + (if tenant.Some? then [SessionDir(["tenants", tenant.value], tenant.value)] else [])
      + [SessionDir([], "global"), SessionDir([], session)]
  }

  /** The first of these directories whose file has the key or does not parse. */
  function FirstAnswer(disk: Disk, dirs: seq<Dir>, key: string): Answer {
    if dirs == [] then Ok(None) else OrElse(Ask(disk, dirs[0], key), FirstAnswer(disk, dirs[1..], key))
  }

  lemma UserScope(k: SK.SessionKey)
    ensures SK.ScopeLayer("user:" + SK.UserKey(k)) == "user"
    ensures "user:" + SK.UserKey(k) != "global"
  {
    var scope := "user:" + SK.UserKey(k);
    assert scope[0] == 'u' && scope[..5] == "user:";
    assert "session:"[0] == 's' && "global"[0] == 'g';
  }

  lemma TenantScope(k: SK.SessionKey)
    ensures SK.TenantKey(k).Some? ==>
              SK.ScopeLayer(SK.TenantKey(k).value) == "tenant" && SK.TenantKey(k).value != "global"
  {
    if SK.TenantKey(k).Some? {
      var scope := SK.TenantKey(k).value;
      assert scope[0] == 't' && scope[..7] == "tenant:";
      assert "session:"[0] == 's' && "user:"[0] == 'u' && "role:"[0] == 'r' && "department:"[0] == 'd'
             && "enterprise:"[0] == 'e' && "global"[0] == 'g';
    }
  }

  lemma AskScope(disk: Disk, ns: SK.SessionNamespace, scope: string, chain: seq<string>, dir: Dir, dirs: seq<Dir>,
                 session: string, key: string)
    requires ScopeGet(disk, ns, scope, key) == Ask(disk, dir, key)
    requires ChainGet(disk, ns, chain, session, key) == FirstAnswer(disk, dirs, key)
    ensures ChainGet(disk, ns, [scope] + chain, session, key) == FirstAnswer(disk, [dir] + dirs, key)
  {
    assert ([scope] + chain)[1..] == chain && ([dir] + dirs)[1..] == dirs;
  }

  lemma AskGlobalAndOwn(disk: Disk, ns: SK.SessionNamespace, session: string, key: string)
    ensures ChainGet(disk, ns, [ns.global], session, key)
         == FirstAnswer(disk, [SessionDir([], ns.global), SessionDir([], session)], key)
  {
    var last := SessionDir([], session);
    assert [last][1..] == [];
    assert [ns.global] + [] == [ns.global] && [SessionDir([], ns.global)] + [last] == [SessionDir([], ns.global), last];
    AskScope(disk, ns, ns.global, [], SessionDir([], ns.global), [last], session, key);
  }

  lemma AskTenantGlobalAndOwn(disk: Disk, ns: SK.SessionNamespace, session: string, key: string)
    requires ns.tenant.Some? && SK.ScopeLayer(ns.tenant.value) == "tenant" && ns.tenant.value != ns.global
    ensures var dir := SessionDir(["tenants", ns.tenant.value], ns.tenant.value);
            ChainGet(disk, ns, [ns.tenant.value, ns.global], session, key)
            == FirstAnswer(disk, [dir, SessionDir([], ns.global), SessionDir([], session)], key)
  {
    var tenant, dirs := ns.tenant.value, [SessionDir([], ns.global), SessionDir([], session)];
    var dir := SessionDir(["tenants", tenant], tenant);
    AskGlobalAndOwn(disk, ns, session, key);
    AskScope(disk, ns, tenant, [ns.global], dir, dirs, session, key);
    assert [tenant] + [ns.global] == [tenant, ns.global];
    assert [dir] + dirs == [dir, SessionDir([], ns.global), SessionDir([], session)];
  }

  lemma ChainOfKey(k: SK.SessionKey)
    ensures var ns := SK.FromSessionKey(k);
            SK.VisibilityChain(ns)
            == [ns.user] + (if ns.tenant.Some? then [ns.tenant.value, ns.global] else [ns.global])
  {
  }

  /** Reading along the chain is reading those directories in order: the user's file is asked
      before the tenant's, that before the global one, and the session's own comes last. */
  lemma ReadsInOrder(disk: Disk, session: string, key: string)
    ensures Get(disk, session, key) == FirstAnswer(disk, ReadDirs(session), key)
  {
    var k := SK.Parse(session);
    if k.Ok? {
      var ns := SK.FromSessionKey(k.value);
      UserScope(k.value);
      TenantScope(k.value);
      ChainOfKey(k.value);
      if ns.tenant.Some? {
        AskTenantGlobalAndOwn(disk, ns, session, key);
        assert ReadDirs(session)[1..] == [SessionDir(["tenants", ns.tenant.value], ns.tenant.value),
                                          SessionDir([], ns.global), SessionDir([], session)];
      } else {
        AskGlobalAndOwn(disk, ns, session, key);
        assert ReadDirs(session)[1..] == [SessionDir([], ns.global), SessionDir([], session)];
      }
      assert ReadDirs(session) == [WriteDir(session)] + ReadDirs(session)[1..];
      AskScope(disk, ns, ns.user, if ns.tenant.Some? then [ns.tenant.value, ns.global] else [ns.global],
               WriteDir(session), ReadDirs(session)[1..], session, key);
    } else {
      assert [SessionDir([], session)][1..] == [];
    }
  }

  /** A write touches only the writer's own directory. */
  lemma StoreWritesOneFile(disk: Disk, session: string, key: string, value: string)
    ensures Store(disk, session, key, value) == WriteTo(disk, WriteDir(session), key, value)
  {
    var k := SK.Parse(session);
    if k.Ok? {
      UserScope(k.value);
    }
  }

  /** Both ids are session keys of the same channel and user. */
  predicate SameUser(a: string, b: string) {
    var j, k := SK.Parse(a), SK.Parse(b);
    j.Ok? && k.Ok? && j.value.channelType == k.value.channelType && j.value.channelUserId == k.value.channelUserId
  }

  lemma WriteDirsEqualIff(a: string, b: string)
    ensures WriteDir(a) == WriteDir(b) <==> a == b || SameUser(a, b)
  {
    var j, k := SK.Parse(a), SK.Parse(b);
    if j.Ok? && k.Ok? {
      SK.PrintUndoesParse(a);
      SK.PrintUndoesParse(b);
      SK.UserKeyInjective(j.value, k.value);
      var u, v := "user:" + SK.UserKey(j.value), "user:" + SK.UserKey(k.value);
      assert u[5..] == SK.UserKey(j.value) && v[5..] == SK.UserKey(k.value);
      assert WriteDir(a)[1] == u && WriteDir(b)[1] == v;
    } else {
      assert j.Err? ==> |WriteDir(a)| == 2 && WriteDir(a)[1] == a;
      assert k.Err? ==> |WriteDir(b)| == 2 && WriteDir(b)[1] == b;
      assert j.Ok? ==> |WriteDir(a)| == 4;
      assert k.Ok? ==> |WriteDir(b)| == 4;
    }
  }

  /** Who can see a write at all: the sessions of the same channel and user; for an id that is no session key,
      that id itself; and everybody for the id `global`, whose file is the global scope. */
  predicate CanSee(reader: string, writer: string) {
    reader == writer || SameUser(reader, writer) || (writer == "global" && SK.Parse(reader).Ok?)
  }

  /** The directories of scopes have four components, those of plain ids two. */
  lemma DirShapes(session: string)
    ensures SK.Parse(session).Err? ==> |WriteDir(session)| == 2 && WriteDir(session)[1] == session
    ensures SK.Parse(session).Ok? ==> |WriteDir(session)| == 4 && WriteDir(session)[0] == "users"
  {
  }

  lemma MembersOfReadDirs(session: string, dir: Dir)
    requires SK.Parse(session).Ok?
    ensures dir in ReadDirs(session)
       <==> dir == WriteDir(session) || dir == SessionDir([], "global") || dir == SessionDir([], session)
            || (var tenant := SK.TenantKey(SK.Parse(session).value);
                tenant.Some? && dir == SessionDir(["tenants", tenant.value], tenant.value))
  {
  }

  lemma NoColonNoKey(s: string)
    requires ':' !in s
    ensures SK.Parse(s).Err?
  {
    Text.SplitUndoesJoin([s], ':');
  }

  lemma ReadsWriteDirIff(reader: string, writer: string)
    ensures WriteDir(writer) in ReadDirs(reader) <==> CanSee(reader, writer)
  {
    WriteDirsEqualIff(reader, writer);
    DirShapes(writer);
    NoColonNoKey("global");
    assert SessionDir([], "global")[1] == "global" && SessionDir([], reader)[1] == reader;
    if SK.Parse(reader).Ok? {
      MembersOfReadDirs(reader, WriteDir(writer));
      var tenant := SK.TenantKey(SK.Parse(reader).value);
      assert tenant.Some? ==> SessionDir(["tenants", tenant.value], tenant.value)[0] == "tenants";
    }
  }

  lemma {:induction false} UnreadDirsDoNotMatter(disk: Disk, dir: Dir, file: KvFile, dirs: seq<Dir>, key: string)
    requires dir !in dirs
    ensures FirstAnswer(disk[dir := file], dirs, key) == FirstAnswer(disk, dirs, key)
  {
    if dirs != [] {
      UnreadDirsDoNotMatter(disk, dir, file, dirs[1..], key);
    }
  }

  lemma Isolated(disk: Disk, writer: string, reader: string, key: string, value: string, k: string)
    requires !CanSee(reader, writer)
    ensures Get(Store(disk, writer, key, value), reader, k) == Get(disk, reader, k)
  {
    var after := Store(disk, writer, key, value);
    ReadsWriteDirIff(reader, writer);
    StoreWritesOneFile(disk, writer, key, value);
    ReadsInOrder(disk, reader, k);
    ReadsInOrder(after, reader, k);
    UnreadDirsDoNotMatter(disk, WriteDir(writer), after[WriteDir(writer)], ReadDirs(reader), k);
  }

  lemma {:induction false} OnlyFileAnswers(dir: Dir, value: string, dirs: seq<Dir>, key: string)
    requires dir in dirs
    ensures FirstAnswer(map[dir := Kvs(map[key := value])], dirs, key) == Ok(Some(value))
  {
    if dirs[0] != dir {
      OnlyFileAnswers(dir, value, dirs[1..], key);
    }
  }

  lemma {:induction false} EmptyDiskAnswersNothing(dirs: seq<Dir>, key: string)
    ensures FirstAnswer(map[], dirs, key) == Ok(None)
  {
    if dirs != [] {
      EmptyDiskAnswersNothing(dirs[1..], key);
    }
  }

  lemma VisibleOnEmptyDisk(writer: string, reader: string, key: string)
    requires CanSee(reader, writer)
    ensures Get(map[], reader, key) == Ok(None)
    ensures Get(Store(map[], writer, key, "v"), reader, key) == Ok(Some("v"))
  {
    ReadsWriteDirIff(reader, writer);
    StoreWritesOneFile(map[], writer, key, "v");
    ReadsInOrder(map[], reader, key);
    EmptyDiskAnswersNothing(ReadDirs(reader), key);
    ReadsInOrder(Store(map[], writer, key, "v"), reader, key);
    assert Store(map[], writer, key, "v") == map[WriteDir(writer) := Kvs(map[key := "v"])];
    OnlyFileAnswers(WriteDir(writer), "v", ReadDirs(reader), key);
  }

  /** A write changes what a session reads, on some disk, exactly if that session can see the writer. */
  lemma IsolationIff(writer: string, reader: string)
    ensures (forall disk, key, value, k :: Get(Store(disk, writer, key, value), reader, k) == Get(disk, reader, k))
       <==> !CanSee(reader, writer)
  {
    ReadsWriteDirIff(reader, writer);
    if !CanSee(reader, writer) {
      forall disk, key, value, k
        ensures Get(Store(disk, writer, key, value), reader, k) == Get(disk, reader, k)
      {
        Isolated(disk, writer, reader, key, value, k);
      }
    } else {
      VisibleOnEmptyDisk(writer, reader, "k");
    }
  }

  /** The file in this directory settles a read: it has the key or does not parse. */
  ghost predicate Settles(disk: Disk, dir: Dir, key: string) {
    dir in disk && (disk[dir] == Corrupt || key in disk[dir].entries)
  }

  lemma {:induction false} FirstAnswerIs(disk: Disk, dirs: seq<Dir>, key: string, i: nat)
    requires i <= |dirs| && forall j :: 0 <= j < i ==> !Settles(disk, dirs[j], key)
    requires i < |dirs| ==> Settles(disk, dirs[i], key)
    ensures FirstAnswer(disk, dirs, key)
         == if i == |dirs| then Ok(None)
            else if disk[dirs[i]] == Corrupt then Err("invalid kv.json")
            else Ok(Some(disk[dirs[i]].entries[key]))
  {
    if i > 0 {
      forall j | 0 <= j < i - 1 ensures !Settles(disk, dirs[1..][j], key) {
        assert dirs[1..][j] == dirs[j + 1];
      }
      assert !Settles(disk, dirs[0], key);
      FirstAnswerIs(disk, dirs[1..], key, i - 1);
    }
  }

  /** Of a session's directories the first that settles the read decides it: if its file does not parse, the
      read fails and nothing behind it is asked; else it answers the value. If none does, there is no value. */
  lemma FirstSettlesTheRead(disk: Disk, session: string, key: string, i: nat)
    requires i <= |ReadDirs(session)|
    requires forall j :: 0 <= j < i ==> !Settles(disk, ReadDirs(session)[j], key)
    requires i < |ReadDirs(session)| ==> Settles(disk, ReadDirs(session)[i], key)
    ensures Get(disk, session, key)
         == if i == |ReadDirs(session)| then Ok(None)
            else if disk[ReadDirs(session)[i]] == Corrupt then Err("invalid kv.json")
            else Ok(Some(disk[ReadDirs(session)[i]].entries[key]))
  {
    ReadsInOrder(disk, session, key);
    FirstAnswerIs(disk, ReadDirs(session), key, i);
  }

  /** An unreadable file of the user makes every read of that user's sessions fail, whatever the tenant's holds. */
  lemma UnreadableUserFileFails(disk: Disk, channel: string, user: string, team: Option<string>, key: string)
    requires ':' !in channel && ':' !in user && (team.Some? ==> ':' !in team.value)
    ensures var scope, session := "user:" + channel + ":" + user, SK.Spelling(channel, user, team);
            var dir := ["users", scope, "sessions", scope];
            dir in disk && disk[dir] == Corrupt ==> Get(disk, session, key) == Err("invalid kv.json")
  {
    var scope, session := "user:" + channel + ":" + user, SK.Spelling(channel, user, team);
    SK.ParseIff(session, channel, user, team);
    assert scope == "user:" + (channel + ":" + user);
    assert ReadDirs(session)[0] == ["users", scope, "sessions", scope];
    if Settles(disk, ReadDirs(session)[0], key) {
      FirstSettlesTheRead(disk, session, key, 0);
    }
  }

  // ---- what any run of writes leaves behind ----

  datatype Write = Write(session: string, key: string, value: string)

  function StoreAll(disk: Disk, writes: seq<Write>): Disk {
    if writes == [] then disk
    else
      var last := writes[|writes| - 1];
      Store(StoreAll(disk, writes[..|writes| - 1]), last.session, last.key, last.value)
  }

  /** Both write the same file. */
  predicate Shares(a: string, b: string) {
    a == b || SameUser(a, b)
  }

  /** The value last written under the key by a session that shares this one's file. */
  function LastShared(writes: seq<Write>, who: string, key: string): Option<string> {
    if writes == [] then None
    else
      var last := writes[|writes| - 1];
      if Shares(last.session, who) && last.key == key then Some(last.value)
      else LastShared(writes[..|writes| - 1], who, key)
  }

  predicate Rewritten(writes: seq<Write>, who: string) {
    exists i :: 0 <= i < |writes| && Shares(writes[i].session, who)
  }

  ghost predicate IsCorrupt(disk: Disk, dir: Dir) {
    dir in disk && disk[dir].Corrupt?
  }

  /** What the file of this session answers after the writes: the last of them under the key; else what it
      held before, except that any write has replaced content that does not parse. */
  ghost function Held(disk: Disk, writes: seq<Write>, who: string, key: string): Answer {
    if LastShared(writes, who, key).Some? then Ok(LastShared(writes, who, key))
    else if Rewritten(writes, who) && IsCorrupt(disk, WriteDir(who)) then Ok(None)
    else Ask(disk, WriteDir(who), key)
  }

  lemma RewrittenAppend(writes: seq<Write>, w: Write, who: string)
    ensures Rewritten(writes + [w], who) <==> Rewritten(writes, who) || Shares(w.session, who)
  {
    var all := writes + [w];
    if Rewritten(writes, who) {
      var i :| 0 <= i < |writes| && Shares(writes[i].session, who);
      assert all[i] == writes[i];
    }
    assert all[|writes|] == w;
  }

  lemma {:induction false} CorruptAfterWrites(disk: Disk, writes: seq<Write>, who: string)
    ensures IsCorrupt(StoreAll(disk, writes), WriteDir(who))
       <==> IsCorrupt(disk, WriteDir(who)) && !Rewritten(writes, who)
  {
    if writes != [] {
      var front, last := writes[..|writes| - 1], writes[|writes| - 1];
      assert writes == front + [last];
      CorruptAfterWrites(disk, front, who);
      RewrittenAppend(front, last, who);
      StoreWritesOneFile(StoreAll(disk, front), last.session, last.key, last.value);
      WriteDirsEqualIff(last.session, who);
    }
  }

  lemma AskAfterWrite(disk: Disk, dir: Dir, key: string, value: string, other: Dir, k: string)
    ensures Ask(WriteTo(disk, dir, key, value), other, k)
         == if dir != other then Ask(disk, other, k)
            else if k == key then Ok(Some(value))
            else if IsCorrupt(disk, other) then Ok(None)
            else Ask(disk, other, k)
  {
  }

  lemma {:induction false} FileAfterWrites(disk: Disk, writes: seq<Write>, who: string, key: string)
    ensures Ask(StoreAll(disk, writes), WriteDir(who), key) == Held(disk, writes, who, key)
  {
    if writes != [] {
      var front, last := writes[..|writes| - 1], writes[|writes| - 1];
      var before := StoreAll(disk, front);
      assert writes == front + [last];
      FileAfterWrites(disk, front, who, key);
      CorruptAfterWrites(disk, front, who);
      RewrittenAppend(front, last, who);
      StoreWritesOneFile(before, last.session, last.key, last.value);
      AskAfterWrite(before, WriteDir(last.session), last.key, last.value, WriteDir(who), key);
      WriteDirsEqualIff(last.session, who);
    }
  }

  lemma {:induction false} UnwrittenFile(disk: Disk, writes: seq<Write>, dir: Dir, key: string)
    requires forall session :: WriteDir(session) != dir
    ensures Ask(StoreAll(disk, writes), dir, key) == Ask(disk, dir, key)
  {
    if writes != [] {
      var front, last := writes[..|writes| - 1], writes[|writes| - 1];
      UnwrittenFile(disk, front, dir, key);
      StoreWritesOneFile(StoreAll(disk, front), last.session, last.key, last.value);
      AskAfterWrite(StoreAll(disk, front), WriteDir(last.session), last.key, last.value, dir, key);
    }
  }

  /** Nobody writes a tenant's file, nor the own file of an id that is a session key. */
  lemma NobodyWrites(reader: string, writer: string)
    requires SK.Parse(reader).Ok?
    ensures WriteDir(writer) != SessionDir([], reader)
    ensures forall tenant :: WriteDir(writer) != SessionDir(["tenants", tenant], tenant)
  {
    DirShapes(writer);
    assert SessionDir([], reader)[1] == reader;
    forall tenant ensures WriteDir(writer) != SessionDir(["tenants", tenant], tenant) {
      assert SessionDir(["tenants", tenant], tenant)[0] == "tenants";
    }
  }

  function TenantAnswer(disk: Disk, reader: string, key: string): Answer
    requires SK.Parse(reader).Ok?
  {
    var tenant := SK.TenantKey(SK.Parse(reader).value);
    if tenant.Some? then Ask(disk, SessionDir(["tenants", tenant.value], tenant.value), key) else Ok(None)
  }

  lemma FourFiles(disk: Disk, reader: string, key: string)
    requires SK.Parse(reader).Ok?
    ensures Get(disk, reader, key)
         == OrElse(Ask(disk, WriteDir(reader), key),
                   OrElse(TenantAnswer(disk, reader, key),
                          OrElse(Ask(disk, SessionDir([], "global"), key), Ask(disk, SessionDir([], reader), key))))
  {
    ReadsInOrder(disk, reader, key);
    var tenant := SK.TenantKey(SK.Parse(reader).value);
    var global, own := SessionDir([], "global"), SessionDir([], reader);
    assert [own][1..] == [] && [global, own][1..] == [own];
    assert FirstAnswer(disk, [own], key) == Ask(disk, own, key);
    assert FirstAnswer(disk, [global, own], key) == OrElse(Ask(disk, global, key), Ask(disk, own, key));
    if tenant.Some? {
      var dir := SessionDir(["tenants", tenant.value], tenant.value);
      assert ReadDirs(reader)[1..] == [dir, global, own] && [dir, global, own][1..] == [global, own];
    } else {
      assert ReadDirs(reader)[1..] == [global, own];
    }
  }

  /** What any session reads after any writes to any disk: for an id that is no session key, what its own file
      then holds; for a session key, the last value that its channel's user wrote, else what is left in that
      user's file, else the tenant's file as it was, else what the writes of the id `global` left in the
      global file, else its own file as it was. */
  lemma GetAfterWrites(disk: Disk, writes: seq<Write>, reader: string, key: string)
    ensures Get(StoreAll(disk, writes), reader, key)
         == if SK.Parse(reader).Err? then Held(disk, writes, reader, key)
            else OrElse(Held(disk, writes, reader, key),
                        OrElse(TenantAnswer(disk, reader, key),
                               OrElse(Held(disk, writes, "global", key), Ask(disk, SessionDir([], reader), key))))
  {
    var after := StoreAll(disk, writes);
    FileAfterWrites(disk, writes, reader, key);
    if SK.Parse(reader).Ok? {
      FourFiles(after, reader, key);
      NoColonNoKey("global");
      FileAfterWrites(disk, writes, "global", key);
      forall writer {
        NobodyWrites(reader, writer);
      }
      UnwrittenFile(disk, writes, SessionDir([], reader), key);
      var tenant := SK.TenantKey(SK.Parse(reader).value);
      if tenant.Some? {
        UnwrittenFile(disk, writes, SessionDir(["tenants", tenant.value], tenant.value), key);
      }
    }
  }

  /** Starting from no files: a session reads the last value its channel's user wrote under the key, else the
      last one written by the id `global`, else nothing; any other id reads its own last value. */
  lemma GetFromEmptyDisk(writes: seq<Write>, reader: string, key: string)
    ensures var own := LastShared(writes, reader, key);
            Get(StoreAll(map[], writes), reader, key)
            == Ok(if own.Some? || SK.Parse(reader).Err? then own else LastShared(writes, "global", key))
  {
    GetAfterWrites(map[], writes, reader, key);
  }

  // ---- the program's store ----

  class LayeredMemoryStore {
    var disk: Disk

    constructor ()
      ensures disk == map[]
    {
      disk := map[];
    }

    method FileStoreKv(root: Dir, id: string, key: string, value: string)
      modifies this
      ensures disk == FileStore(old(disk), root, id, key, value)
    {
      var dir := SessionDir(root, id);
      var kvs: map<string, string> := map[];
      if dir in disk && disk[dir].Kvs? {
        kvs := disk[dir].entries;
      }
      kvs := kvs[key := value];
      disk := disk[dir := Kvs(kvs)];
    }

    method StoreKv(session: string, key: string, value: string)
      modifies this
      ensures disk == Store(old(disk), session, key, value)
    {
      var ns := NamespaceForSession(session);
      if ns.None? {
        FileStoreKv([], session, key, value);
      } else {
        FileStoreKv(ScopeRoot(ns.value.user), ns.value.user, key, value);
      }
    }

    /** Walks the visibility chain and ends at the first value or error. */
    method GetKv(session: string, key: string) returns (answer: Answer)
      ensures answer == Get(disk, session, key)
    {
      var ns := NamespaceForSession(session);
      if ns.None? {
        return FileGet(disk, [], session, key);
      }
      var chain := SK.BuildVisibilityChain(ns.value);
      assert chain[0..] == chain;
      for i := 0 to |chain|
        invariant Get(disk, session, key) == ChainGet(disk, ns.value, chain[i..], session, key)
      {
        assert chain[i..][1..] == chain[i + 1..];
        var here := ScopeGet(disk, ns.value, chain[i], key);
        if here.Err? || here.value.Some? {
          return here;
        }
      }
      answer := FileGet(disk, [], session, key);
    }
  }
}
