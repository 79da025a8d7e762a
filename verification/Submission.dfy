/** Submissions, rule creation and rule deletion as interleaved transactions under advisory locks:
    internal/store/postgres.go and internal/store/native_rules.go. A transaction's writes appear when it
    commits, and its locks are released then. */
module Submission {
  import opened Domain
  import opened NativeRules

  const WINDOW := 30  // seconds

  /** Libraries: the rule matching, and the hash that turns a lock's text into its number. */
  datatype Environment = Environment(lib: Library, hash: string -> int)

  datatype Row = Row(vid: string, ip: Option<string>, data: DanmakuData, deleted: bool, created: int)

  datatype InsertStage =
    | Begun
    | RulesLocked
    | Ruled(data: DanmakuData, deleted: bool)
    | KeyLocked(data: DanmakuData, deleted: bool)
    | Checked(data: DanmakuData, deleted: bool)

  datatype CreateStage = CreateBegun | CreateLocked | RuleInserted | Scanned(hits: set<nat>)

  datatype Transaction =
    | Insert(vid: string, original: DanmakuData, ip: Option<string>, now: int, stage: InsertStage)
    | Create(rule: NativeRule, scan: bool, creation: CreateStage)
    | Delete(kind: Kind, id: nat, locked: bool)

  /** Numbers of rules are drawn one after the other, and a refused insert uses one up. */
  datatype State = State(
    rows: seq<Row>,
    rules: seq<NativeRule>,
    nextRule: nat,
    videos: map<string, bool>,  // whether deleted
    open: map<nat, Transaction>)

  datatype Step =
    | BeginInsert(tx: nat, vid: string, original: DanmakuData, ip: Option<string>, now: int)
    | LockRulesShared(tx: nat)
    | ReadRules(tx: nat)
    | LockKey(tx: nat)
    | CheckDuplicate(tx: nat)
    | CommitInsert(tx: nat)
    | BeginCreate(tx: nat, kind: Kind, value: string, replacement: string, scan: bool)
    | LockRulesExclusive(tx: nat)
    | InsertRule(tx: nat)
    | ScanRows(tx: nat)
    | CommitCreate(tx: nat)
    | BeginDelete(tx: nat, kind: Kind, id: nat)
    | CommitDelete(tx: nat)
    | Abort(tx: nat)
    | AddVideo(vid: string)
    | SetVideoDeleted(vid: string, deleted: bool)

  const Initial := State([], [], 1, map[], map[])

  // ----- locks -----

  predicate HoldsShared(t: Transaction) {
    t.Insert? && !t.stage.Begun?
  }

  predicate HoldsExclusive(t: Transaction) {
    (t.Create? && !t.creation.CreateBegun?) || (t.Delete? && t.locked)
  }

  predicate HoldsKey(t: Transaction) {
    t.Insert? && (t.stage.KeyLocked? || t.stage.Checked?)
  }

  function IPText(ip: Option<string>): string {
    match ip
    case None => ""
    case Some(text) => text
  }

  /** Eight bytes, the highest first. */
  function BigEndian(n: nat, bytes: nat): (s: string)
    ensures |s| == bytes
  {
    if bytes == 0 then "" else BigEndian(n / 256, bytes - 1) + [(n % 256) as char]
  }

  function Sized(s: string): string {
    BigEndian(|s|, 8) + s
  }

  /** What is hashed into the number of the duplicate lock. */
  function LockText(vid: string, ip: Option<string>, text: string): string {
    Sized("danmaku:duplicate:v1") + Sized(IPText(ip)) + Sized(vid) + Sized(text)
  }

  function LockNumber(env: Environment, t: Transaction): int
    requires t.Insert?
  {
    env.hash(LockText(t.vid, t.ip, PointerValue(t.original.text)))
  }

  predicate SharedFree(s: State, tx: nat) {
    forall other | other in s.open && other != tx :: !HoldsExclusive(s.open[other])
  }

  predicate ExclusiveFree(s: State, tx: nat) {
    forall other | other in s.open && other != tx :: !HoldsExclusive(s.open[other]) && !HoldsShared(s.open[other])
  }

  predicate KeyFree(env: Environment, s: State, tx: nat, number: int) {
    forall other | other in s.open && other != tx && HoldsKey(s.open[other]) :: LockNumber(env, s.open[other]) != number
  }

  // ----- steps -----

  predicate IsDuplicate(row: Row, vid: string, ip: Option<string>, text: string, since: int) {
    row.vid == vid && row.ip == ip && PointerValue(row.data.text) == text && row.created >= since
  }

  /** The query for a recent row with the same text. */
  predicate HasDuplicate(rows: seq<Row>, vid: string, ip: Option<string>, text: string, since: int) {
    exists i | 0 <= i < |rows| :: IsDuplicate(rows[i], vid, ip, text, since)
  }

  predicate IsDeleted(videos: map<string, bool>, vid: string) {
    vid in videos && videos[vid]
  }

  /** The video row is made on first sight. */
  function WithVideo(videos: map<string, bool>, vid: string): map<string, bool> {
    if vid in videos then videos else videos[vid := false]
  }

  predicate SameRule(rule: NativeRule, other: NativeRule) {
    rule.kind == other.kind && rule.value == other.value
  }

  predicate HasRule(rules: seq<NativeRule>, rule: NativeRule) {
    exists i | 0 <= i < |rules| :: SameRule(rules[i], rule)
  }

  /** What creation accepts after normalization. */
  predicate Normalized(kind: Kind, value: string, replacement: string) {
    if kind == Authors then value != "" && replacement != "" && value != replacement else replacement == ""
  }

  predicate Inserting(s: State, tx: nat) {
    tx in s.open && s.open[tx].Insert?
  }

  predicate Creating(s: State, tx: nat) {
    tx in s.open && s.open[tx].Create?
  }

  predicate Enabled(env: Environment, s: State, step: Step) {
    match step
    case BeginInsert(tx, _, _, _, _) => tx !in s.open
    case LockRulesShared(tx) => Inserting(s, tx) && s.open[tx].stage.Begun? && SharedFree(s, tx)
    case ReadRules(tx) => Inserting(s, tx) && s.open[tx].stage.RulesLocked?
    case LockKey(tx) => Inserting(s, tx) && s.open[tx].stage.Ruled? && KeyFree(env, s, tx, LockNumber(env, s.open[tx]))
    case CheckDuplicate(tx) => Inserting(s, tx) && s.open[tx].stage.KeyLocked?
    case CommitInsert(tx) => Inserting(s, tx) && s.open[tx].stage.Checked?
    case BeginCreate(tx, kind, value, replacement, scan) =>
      tx !in s.open && Normalized(kind, value, replacement) && (scan ==> kind == Authors)
    case LockRulesExclusive(tx) =>
      && tx in s.open && ExclusiveFree(s, tx)
      && ((s.open[tx].Create? && s.open[tx].creation.CreateBegun?) || (s.open[tx].Delete? && !s.open[tx].locked))
    case InsertRule(tx) => Creating(s, tx) && s.open[tx].creation.CreateLocked?
    case ScanRows(tx) => Creating(s, tx) && s.open[tx].creation.RuleInserted?
    case CommitCreate(tx) => Creating(s, tx) && s.open[tx].creation.Scanned?
    case BeginDelete(tx, _, _) => tx !in s.open
    case CommitDelete(tx) => tx in s.open && s.open[tx].Delete? && s.open[tx].locked
    case Abort(tx) => tx in s.open
    case AddVideo(_) => true
    case SetVideoDeleted(_, _) => true
  }

  function Close(s: State, tx: nat): State {
    s.(open := s.open - {tx})
  }

  function Advance(s: State, tx: nat, stage: InsertStage): State
    requires Inserting(s, tx)
  {
    s.(open := s.open[tx := s.open[tx].(stage := stage)])
  }

  function AdvanceCreate(s: State, tx: nat, creation: CreateStage): State
    requires Creating(s, tx)
  {
    s.(open := s.open[tx := s.open[tx].(creation := creation)])
  }

  /** The rows a scan for this name finds. */
  function StoredBy(rows: seq<Row>, scan: bool, name: string): set<nat> {
    set i | 0 <= i < |rows| && scan && EffectiveAuthor(rows[i].data) == name
  }

  /** The historical replacement of one row. */
  function Replaced(row: Row, replacement: string): Row {
    row.(data := row.data.(author := replacement))
  }

  function Rewrite(rows: seq<Row>, hits: set<nat>, replacement: string): (r: seq<Row>)
    ensures |r| == |rows|
    ensures forall i | 0 <= i < |r| :: r[i] == if i in hits then Replaced(rows[i], replacement) else rows[i]
  {
    seq(|rows|, i requires 0 <= i < |rows| => if i in hits then Replaced(rows[i], replacement) else rows[i])
  }

  function Without(rules: seq<NativeRule>, kind: Kind, id: nat): (r: seq<NativeRule>)
    ensures forall rule :: rule in r <==> rule in rules && !(rule.kind == kind && rule.id == id)
  {
    if rules == [] then []
    else (if rules[0].kind == kind && rules[0].id == id then [] else [rules[0]]) + Without(rules[1..], kind, id)
  }

  function Perform(env: Environment, s: State, step: Step): State
    requires Enabled(env, s, step)
  {
    match step
    case BeginInsert(tx, vid, original, ip, now) => s.(open := s.open[tx := Insert(vid, original, ip, now, Begun)])
    case LockRulesShared(tx) => Advance(s, tx, RulesLocked)
    case ReadRules(tx) =>
      (match Apply(env.lib, s.rules, s.open[tx].original, s.open[tx].ip)
       case Kept(data, deleted) => Advance(s, tx, Ruled(data, deleted))
       case _ => Close(s, tx))
    case LockKey(tx) => Advance(s, tx, KeyLocked(s.open[tx].stage.data, s.open[tx].stage.deleted))
    case CheckDuplicate(tx) =>
      var t := s.open[tx];
      if IsDeleted(s.videos, t.vid) then Close(s, tx)
      else if HasDuplicate(s.rows, t.vid, t.ip, PointerValue(t.original.text), t.now - WINDOW)
      then Close(s, tx).(videos := WithVideo(s.videos, t.vid))
      else Advance(s, tx, Checked(t.stage.data, t.stage.deleted))
    case CommitInsert(tx) =>
      var t := s.open[tx];
      Close(s, tx).(rows := s.rows + [Row(t.vid, t.ip, t.stage.data, t.stage.deleted, t.now)],
                    videos := WithVideo(s.videos, t.vid))
    case BeginCreate(tx, kind, value, replacement, scan) =>
      s.(open := s.open[tx := Create(NativeRule(0, kind, value, replacement), scan, CreateBegun)])
    case LockRulesExclusive(tx) =>
      if s.open[tx].Create? then AdvanceCreate(s, tx, CreateLocked)
      else s.(open := s.open[tx := s.open[tx].(locked := true)])
    case InsertRule(tx) =>
      if HasRule(s.rules, s.open[tx].rule) then Close(s, tx).(nextRule := s.nextRule + 1)
      else s.(nextRule := s.nextRule + 1,
              open := s.open[tx := s.open[tx].(rule := s.open[tx].rule.(id := s.nextRule), creation := RuleInserted)])
    case ScanRows(tx) =>
      var t := s.open[tx];
      AdvanceCreate(s, tx, Scanned(StoredBy(s.rows, t.scan, t.rule.value)))
    case CommitCreate(tx) =>
      var t := s.open[tx];
      Close(s, tx).(rules := s.rules + [t.rule], rows := Rewrite(s.rows, t.creation.hits, t.rule.replacement))
    case BeginDelete(tx, kind, id) => s.(open := s.open[tx := Delete(kind, id, false)])
    case CommitDelete(tx) => Close(s, tx).(rules := Without(s.rules, s.open[tx].kind, s.open[tx].id))
    case Abort(tx) => Close(s, tx)
    case AddVideo(vid) => s.(videos := WithVideo(s.videos, vid))
    case SetVideoDeleted(vid, deleted) => s.(videos := if vid in s.videos then s.videos[vid := deleted] else s.videos)
  }
}
