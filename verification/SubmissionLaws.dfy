/** What every run of the submission protocol keeps: the duplicate guard and the completeness of rule scans. */
module SubmissionLaws {
  import opened Bits
  import opened Decimal
  import opened Domain
  import opened NativeRules
  import opened Runs
  import opened Submission

  // ----- the text of the duplicate lock -----

  ghost function Pow256(n: nat): (p: nat)
    ensures p > 0
  {
    if n == 0 then 1 else 256 * Pow256(n - 1)
  }

  /** The bytes of a number, the highest first. */
  lemma {:induction false} BigEndianBytes(n: nat, bytes: nat, i: nat)
    requires i < bytes
    ensures BigEndian(n, bytes)[i] as int == n / Pow256(bytes - 1 - i) % 256
  {
    if i < bytes - 1 {
      BigEndianBytes(n / 256, bytes - 1, i);
      DivideTwice(n, Pow256(bytes - 2 - i));
    }
  }

  lemma DivideTwice(n: nat, d: nat)
    requires d > 0
    ensures n / 256 / d == n / (256 * d)
  {
    var q := n / 256 / d;
    assert n / 256 == q * d + n / 256 % d && n == n / 256 * 256 + n % 256;
    assert n == q * (256 * d) + (n / 256 % d * 256 + n % 256);
    DivModUnique(n, 256 * d, q, n / 256 % d * 256 + n % 256);
  }

  lemma {:induction false} BigEndianInjective(m: nat, n: nat, bytes: nat)
    requires m < Pow256(bytes) && n < Pow256(bytes)
    requires BigEndian(m, bytes) == BigEndian(n, bytes)
    ensures m == n
  {
    if bytes > 0 {
      var a, b := BigEndian(m, bytes), BigEndian(n, bytes);
      assert a[..bytes - 1] == BigEndian(m / 256, bytes - 1) && b[..bytes - 1] == BigEndian(n / 256, bytes - 1);
      assert a[bytes - 1] == b[bytes - 1];
      BigEndianInjective(m / 256, n / 256, bytes - 1);
    }
  }

  predicate InMemory(s: string) {
    |s| < 0x8000_0000_0000_0000
  }

  lemma SizedInjective(a: string, b: string, restA: string, restB: string)
    requires InMemory(a) && InMemory(b)
    requires Sized(a) + restA == Sized(b) + restB
    ensures a == b && restA == restB
  {
    var whole := Sized(a) + restA;
    assert whole[..8] == BigEndian(|a|, 8) && whole[..8] == BigEndian(|b|, 8);
    assert Pow256(4) == 0x1_0000_0000;
    assert Pow256(8) == 0x1_0000_0000 * Pow256(4);
    BigEndianInjective(|a|, |b|, 8);
    assert a == whole[8..8 + |a|] && b == whole[8..8 + |b|];
    assert restA == whole[8 + |a|..] && restB == whole[8 + |b|..];
  }

  lemma SameTail(tag: string, a: string, b: string)
    requires tag + a == tag + b
    ensures a == b
  {
    assert a == (tag + a)[|tag|..] && b == (tag + b)[|tag|..];
  }

  lemma Regroup(tag: string, a: string, b: string, c: string)
    ensures tag + a + b + c == tag + (a + (b + c))
  {
  }

  lemma ThreeSizedInjective(a: string, b: string, c: string, a': string, b': string, c': string)
    requires InMemory(a) && InMemory(b) && InMemory(c) && InMemory(a') && InMemory(b') && InMemory(c')
    requires Sized(a) + (Sized(b) + Sized(c)) == Sized(a') + (Sized(b') + Sized(c'))
    ensures a == a' && b == b' && c == c'
  {
    SizedInjective(a, a', Sized(b) + Sized(c), Sized(b') + Sized(c'));
    SizedInjective(b, b', Sized(c), Sized(c'));
    LastSizedInjective(c, c');
  }

  lemma LastSizedInjective(c: string, c': string)
    requires InMemory(c) && InMemory(c') && Sized(c) == Sized(c')
    ensures c == c'
  {
    assert Sized(c) + "" == Sized(c) && Sized(c') + "" == Sized(c');
    SizedInjective(c, c', "", "");
  }

  /** Different triples never share a lock text; an absent address counts as the empty one. */
  lemma LockTextInjective(vid: string, ip: Option<string>, text: string,
                          vid': string, ip': Option<string>, text': string)
    requires InMemory(vid) && InMemory(IPText(ip)) && InMemory(text)
    requires InMemory(vid') && InMemory(IPText(ip')) && InMemory(text')
    ensures LockText(vid, ip, text) == LockText(vid', ip', text')
            <==> vid == vid' && IPText(ip) == IPText(ip') && text == text'
  {
    if LockText(vid, ip, text) == LockText(vid', ip', text') {
      var tag := Sized("danmaku:duplicate:v1");
      Regroup(tag, Sized(IPText(ip)), Sized(vid), Sized(text));
      Regroup(tag, Sized(IPText(ip')), Sized(vid'), Sized(text'));
      SameTail(tag, Sized(IPText(ip)) + (Sized(vid) + Sized(text)), Sized(IPText(ip')) + (Sized(vid') + Sized(text')));
      ThreeSizedInjective(IPText(ip), vid, text, IPText(ip'), vid', text');
    }
  }

  // ----- the duplicate guard -----

  ghost predicate SameSubmission(a: Row, b: Row) {
    a.vid == b.vid && a.ip == b.ip && PointerValue(a.data.text) == PointerValue(b.data.text)
  }

  /** In commit order, equal submissions are strictly later and more than the window apart. */
  ghost predicate Spaced(rows: seq<Row>) {
    forall i, j | 0 <= i < j < |rows| && SameSubmission(rows[i], rows[j]) :: rows[j].created > rows[i].created + WINDOW
  }

  ghost predicate Submits(t: Transaction, row: Row) {
    t.Insert? && row.vid == t.vid && row.ip == t.ip && PointerValue(row.data.text) == PointerValue(t.original.text)
  }

  /** A staged submission has the original text, and once checked no row stands in its window. */
  ghost predicate GuardRight(rows: seq<Row>, t: Transaction) {
    t.Insert? ==>
      && (t.stage.Ruled? || t.stage.KeyLocked? || t.stage.Checked? ==> t.stage.data.text == t.original.text)
      && (t.stage.Checked? ==> forall row | row in rows && Submits(t, row) :: row.created + WINDOW < t.now)
  }

  ghost predicate KeysExclusive(env: Environment, open: map<nat, Transaction>) {
    forall a, b | a in open && b in open && a != b && HoldsKey(open[a]) && HoldsKey(open[b]) ::
      LockNumber(env, open[a]) != LockNumber(env, open[b])
  }

  ghost predicate GuardInvariant(env: Environment, s: State) {
    && Spaced(s.rows)
    && KeysExclusive(env, s.open)
    && forall tx | tx in s.open :: GuardRight(s.rows, s.open[tx])
  }

  /** Who holds its key has held it before, for the same number, or takes it now. */
  lemma KeyHolder(env: Environment, s: State, step: Step, tx: nat)
    requires Enabled(env, s, step)
    requires tx in Perform(env, s, step).open && HoldsKey(Perform(env, s, step).open[tx])
    ensures Inserting(s, tx) && LockNumber(env, Perform(env, s, step).open[tx]) == LockNumber(env, s.open[tx])
    ensures HoldsKey(s.open[tx]) || step == LockKey(tx)
  {
    hide LockText, HasDuplicate, HasRule, KeyFree, SharedFree, ExclusiveFree, StoredBy, Rewrite, Without;
  }

  lemma StepKeepsKeys(env: Environment, s: State, step: Step)
    requires KeysExclusive(env, s.open) && Enabled(env, s, step)
    ensures KeysExclusive(env, Perform(env, s, step).open)
  {
    hide Perform, LockNumber;
    var t := Perform(env, s, step);
    forall tx | tx in t.open && HoldsKey(t.open[tx])
      ensures Inserting(s, tx) && LockNumber(env, t.open[tx]) == LockNumber(env, s.open[tx])
      ensures HoldsKey(s.open[tx]) || step == LockKey(tx)
    {
      KeyHolder(env, s, step, tx);
    }
  }

  /** The rules touch nothing but the author. */
  lemma RulesKeepText(env: Environment, s: State, tx: nat)
    requires Inserting(s, tx) && Apply(env.lib, s.rules, s.open[tx].original, s.open[tx].ip).Kept?
    ensures Apply(env.lib, s.rules, s.open[tx].original, s.open[tx].ip).data.text == s.open[tx].original.text
  {
    ApplyKeeps(env.lib, s.rules, s.open[tx].original, s.open[tx].ip, s.open[tx].original, false);
  }

  lemma CheckKeepsGuard(env: Environment, s: State, tx: nat)
    requires GuardInvariant(env, s) && Enabled(env, s, CheckDuplicate(tx))
    ensures var t := Perform(env, s, CheckDuplicate(tx));
            forall other | other in t.open :: GuardRight(t.rows, t.open[other])
  {
  }

  lemma CommitInsertKeepsGuard(env: Environment, s: State, tx: nat)
    requires GuardInvariant(env, s) && Enabled(env, s, CommitInsert(tx))
    ensures GuardInvariant(env, Perform(env, s, CommitInsert(tx)))
  {
  }

  /** A rewrite by a scan changes nothing that the guard looks at. */
  lemma RewriteKeepsGuard(rows: seq<Row>, hits: set<nat>, name: string, t: Transaction)
    requires GuardRight(rows, t)
    ensures GuardRight(Rewrite(rows, hits, name), t)
  {
  }

  lemma RewriteKeepsSpaced(rows: seq<Row>, hits: set<nat>, name: string)
    requires Spaced(rows)
    ensures Spaced(Rewrite(rows, hits, name))
  {
  }

  lemma CommitCreateKeepsGuard(env: Environment, s: State, tx: nat)
    requires GuardInvariant(env, s) && Enabled(env, s, CommitCreate(tx))
    ensures GuardInvariant(env, Perform(env, s, CommitCreate(tx)))
  {
    var hits, name := s.open[tx].creation.hits, s.open[tx].rule.replacement;
    StepKeepsKeys(env, s, CommitCreate(tx));
    RewriteKeepsSpaced(s.rows, hits, name);
    hide GuardRight;
    forall other | other in s.open && other != tx {
      RewriteKeepsGuard(s.rows, hits, name, s.open[other]);
    }
  }

  lemma StepKeepsGuard(env: Environment, s: State, step: Step)
    requires GuardInvariant(env, s) && Enabled(env, s, step)
    ensures GuardInvariant(env, Perform(env, s, step))
  {
    StepKeepsKeys(env, s, step);
    if step.CommitInsert? {
      CommitInsertKeepsGuard(env, s, step.tx);
    } else if step.CommitCreate? {
      CommitCreateKeepsGuard(env, s, step.tx);
    } else if step.CheckDuplicate? {
      CheckKeepsGuard(env, s, step.tx);
    } else {
      var t := Perform(env, s, step);
      if step.ReadRules? && Apply(env.lib, s.rules, s.open[step.tx].original, s.open[step.tx].ip).Kept? {
        RulesKeepText(env, s, step.tx);
      }
      assert t.rows == s.rows;
      forall tx | tx in t.open
        ensures GuardRight(t.rows, t.open[tx])
      {
        assert tx in s.open ==> GuardRight(s.rows, s.open[tx]);
      }
    }
  }

  ghost predicate Leads(env: Environment, s: State, t: State) {
    exists step :: Enabled(env, s, step) && t == Perform(env, s, step)
  }

  ghost function LeadsIn(env: Environment): (State, State) -> bool {
    (s, t) => Leads(env, s, t)
  }

  /** In every interleaving, whenever each clock was read, equal submissions are stored in the order of
      their times and more than 30 seconds apart. */
  lemma DuplicateGuard(env: Environment, run: seq<State>, end: nat)
    requires IsRun(Initial, LeadsIn(env), run) && end < |run|
    ensures forall i, j | 0 <= i < j < |run[end].rows| ::
              var a, b := run[end].rows[i], run[end].rows[j];
              a.vid == b.vid && a.ip == b.ip && PointerValue(a.data.text) == PointerValue(b.data.text)
              ==> b.created > a.created + 30
    ensures Spaced(run[end].rows)
  {
    var holds := s => GuardInvariant(env, s);
    var leads := LeadsIn(env);
    forall s, t | holds(s) && leads(s, t)
      ensures holds(t)
    {
      var step :| Enabled(env, s, step) && t == Perform(env, s, step);
      StepKeepsGuard(env, s, step);
    }
    KeptOverRun(Initial, leads, holds, run);
    assert holds(run[end]);
  }

  /** The row with this number is still there, whatever a scan has made of its author. */
  ghost predicate StillThere(rows: seq<Row>, i: nat, row: Row) {
    i < |rows| && SameSubmission(rows[i], row) && rows[i].created == row.created
  }

  lemma StepKeepsRow(env: Environment, s: State, step: Step, i: nat, row: Row)
    requires StillThere(s.rows, i, row) && Enabled(env, s, step)
    ensures StillThere(Perform(env, s, step).rows, i, row)
  {
  }

  lemma RowStays(env: Environment, run: seq<State>, i: nat, row: Row)
    requires run != [] && StillThere(run[0].rows, i, row)
    requires forall k | 0 <= k < |run| - 1 :: LeadsIn(env)(run[k], run[k + 1])
    ensures StillThere(run[|run| - 1].rows, i, row)
  {
    var holds := (s: State) => StillThere(s.rows, i, row);
    forall s, t | holds(s) && LeadsIn(env)(s, t)
      ensures holds(t)
    {
      var step :| Enabled(env, s, step) && t == Perform(env, s, step);
      StepKeepsRow(env, s, step, i, row);
    }
    KeptFrom(LeadsIn(env), holds, run, 0, |run| - 1);
  }

  // ----- the rule scan -----

  ghost predicate CreationRight(s: State, t: Transaction) {
    t.Create? ==>
      && Wellformed(t.rule) && (t.scan ==> t.rule.kind == Authors)
      && (t.creation.RuleInserted? || t.creation.Scanned? ==> forall rule | rule in s.rules :: !SameRule(rule, t.rule))
      && (t.creation.Scanned? ==> t.creation.hits == StoredBy(s.rows, t.scan, t.rule.value))
  }

  /** Whoever writes rules is alone with the rules. */
  ghost predicate WriterAlone(open: map<nat, Transaction>) {
    forall a, b | a in open && b in open && a != b && HoldsExclusive(open[a]) ::
      !HoldsExclusive(open[b]) && !HoldsShared(open[b])
  }

  ghost predicate RulesRight(rules: seq<NativeRule>) {
    Unique(rules) && forall rule | rule in rules :: Wellformed(rule)
  }

  ghost predicate RuleInvariant(s: State) {
    && RulesRight(s.rules)
    && WriterAlone(s.open)
    && forall tx | tx in s.open :: CreationRight(s, s.open[tx])
  }

  lemma StepKeepsWriterAlone(env: Environment, s: State, step: Step)
    requires WriterAlone(s.open) && Enabled(env, s, step)
    ensures WriterAlone(Perform(env, s, step).open)
  {
    hide LockText, HasDuplicate, HasRule, KeyFree, StoredBy, Rewrite, Without;
    var t := Perform(env, s, step);
    forall tx | tx in t.open && (HoldsExclusive(t.open[tx]) || HoldsShared(t.open[tx]))
      ensures tx in s.open
      ensures HoldsExclusive(t.open[tx]) ==> HoldsExclusive(s.open[tx]) || step == LockRulesExclusive(tx)
      ensures HoldsShared(t.open[tx]) ==> HoldsShared(s.open[tx]) || step == LockRulesShared(tx)
    {
    }
  }

  lemma StepKeepsRules(env: Environment, s: State, step: Step)
    requires RuleInvariant(s) && Enabled(env, s, step)
    ensures RulesRight(Perform(env, s, step).rules)
  {
  }

  predicate Writes(step: Step) {
    step.CommitInsert? || step.CommitCreate? || step.CommitDelete?
  }

  /** Whoever writes rows or rules, no creation that depends on them is under way. */
  lemma WriteKeepsCreation(env: Environment, s: State, step: Step, tx: nat)
    requires RuleInvariant(s) && Enabled(env, s, step) && Writes(step) && tx in Perform(env, s, step).open
    ensures CreationRight(Perform(env, s, step), Perform(env, s, step).open[tx])
  {
    hide Rewrite, Without, StoredBy, RulesRight, EffectiveAuthor;
    assert CreationRight(s, s.open[tx]) && s.open[tx] == Perform(env, s, step).open[tx];
    assert HoldsShared(s.open[step.tx]) || HoldsExclusive(s.open[step.tx]);
  }

  lemma OtherKeepsCreation(env: Environment, s: State, step: Step, tx: nat)
    requires RuleInvariant(s) && Enabled(env, s, step) && !Writes(step) && tx in Perform(env, s, step).open
    ensures CreationRight(Perform(env, s, step), Perform(env, s, step).open[tx])
  {
    hide StoredBy, RulesRight, WriterAlone, EffectiveAuthor, KeyFree, SharedFree, ExclusiveFree, HasDuplicate;
    assert Perform(env, s, step).rows == s.rows && Perform(env, s, step).rules == s.rules;
    if tx in s.open {
      assert CreationRight(s, s.open[tx]);
    }
  }

  lemma StepKeepsCreations(env: Environment, s: State, step: Step, tx: nat)
    requires RuleInvariant(s) && Enabled(env, s, step) && tx in Perform(env, s, step).open
    ensures CreationRight(Perform(env, s, step), Perform(env, s, step).open[tx])
  {
    hide Perform, CreationRight, RuleInvariant, Enabled;
    if Writes(step) {
      WriteKeepsCreation(env, s, step, tx);
    } else {
      OtherKeepsCreation(env, s, step, tx);
    }
  }

  lemma StepKeepsRuleInvariant(env: Environment, s: State, step: Step)
    requires RuleInvariant(s) && Enabled(env, s, step)
    ensures RuleInvariant(Perform(env, s, step))
  {
    StepKeepsWriterAlone(env, s, step);
    StepKeepsRules(env, s, step);
    forall tx | tx in Perform(env, s, step).open {
      StepKeepsCreations(env, s, step, tx);
    }
  }

  ghost predicate NoneMapsTo(rules: seq<NativeRule>, name: string) {
    forall rule | rule in rules && rule.kind == Authors :: rule.replacement != name
  }

  ghost predicate HasRuleFor(rules: seq<NativeRule>, name: string) {
    exists rule :: rule in rules && rule.kind == Authors && rule.value == name
  }

  ghost predicate Staged(t: Transaction) {
    t.Insert? && (t.stage.Ruled? || t.stage.KeyLocked? || t.stage.Checked?)
  }

  /** The name is nowhere: not on a row, not on a submission that has passed the rules. */
  ghost predicate NameGone(s: State, name: string) {
    && (forall row | row in s.rows :: EffectiveAuthor(row.data) != name)
    && (forall tx | tx in s.open && Staged(s.open[tx]) :: EffectiveAuthor(s.open[tx].stage.data) != name)
  }

  lemma ReadRulesKeepsNameGone(env: Environment, s: State, tx: nat, name: string)
    requires RuleInvariant(s) && Enabled(env, s, ReadRules(tx))
    requires HasRuleFor(s.rules, name) && NoneMapsTo(s.rules, name) && NameGone(s, name)
    ensures NameGone(Perform(env, s, ReadRules(tx)), name)
  {
    var t := s.open[tx];
    if Apply(env.lib, s.rules, t.original, t.ip).Kept? {
      StoredUnder(env.lib, s.rules, t.original, t.ip, name);
      var rule :| rule in s.rules && rule.kind == Authors && rule.value == name;
      assert EffectiveAuthor(t.original) == name ==> MatchesAuthor(rule, t.original);
    }
  }

  /** After a creation commits, a name is gone from the rows if the scan was for it or it was gone before. */
  lemma CommitCreateClearsRows(env: Environment, s: State, tx: nat, name: string)
    requires RuleInvariant(s) && Enabled(env, s, CommitCreate(tx))
    requires NoneMapsTo(Perform(env, s, CommitCreate(tx)).rules, name)
    requires || (s.open[tx].scan && s.open[tx].rule.value == name)
             || forall row | row in s.rows :: EffectiveAuthor(row.data) != name
    ensures forall row | row in Perform(env, s, CommitCreate(tx)).rows :: EffectiveAuthor(row.data) != name
  {
    var t := Perform(env, s, CommitCreate(tx));
    var rule, hits := s.open[tx].rule, s.open[tx].creation.hits;
    assert CreationRight(s, s.open[tx]) && rule in t.rules;
    forall row | row in t.rows
      ensures EffectiveAuthor(row.data) != name
    {
      var i :| 0 <= i < |t.rows| && t.rows[i] == row;
      assert s.rows[i] in s.rows;
      if i in hits {
        assert row == Replaced(s.rows[i], rule.replacement);
      }
    }
  }

  lemma StepKeepsNameGone(env: Environment, s: State, step: Step, name: string)
    requires RuleInvariant(s) && Enabled(env, s, step)
    requires HasRuleFor(s.rules, name) && NoneMapsTo(s.rules, name) && NameGone(s, name)
    requires NoneMapsTo(Perform(env, s, step).rules, name)
    ensures NameGone(Perform(env, s, step), name)
  {
    hide HasDuplicate, HasRule, KeyFree, SharedFree, ExclusiveFree, StoredBy, Without, RuleInvariant;
    if step.ReadRules? {
      ReadRulesKeepsNameGone(env, s, step.tx, name);
    } else if step.CommitCreate? {
      CommitCreateClearsRows(env, s, step.tx, name);
    }
  }

  /** The lock at work: when a scan commits, no submission is between its rules and its commit. */
  lemma ScanClearsName(env: Environment, s: State, tx: nat, name: string)
    requires RuleInvariant(s) && Enabled(env, s, CommitCreate(tx))
    requires s.open[tx].scan && s.open[tx].rule.value == name
    requires NoneMapsTo(Perform(env, s, CommitCreate(tx)).rules, name)
    ensures NameGone(Perform(env, s, CommitCreate(tx)), name)
  {
  }

  lemma RulesHold(env: Environment, run: seq<State>)
    requires IsRun(Initial, LeadsIn(env), run)
    ensures forall i | 0 <= i < |run| :: RuleInvariant(run[i])
  {
    var leads := LeadsIn(env);
    forall s, t | RuleInvariant(s) && leads(s, t)
      ensures RuleInvariant(t)
    {
      var step :| Enabled(env, s, step) && t == Perform(env, s, step);
      StepKeepsRuleInvariant(env, s, step);
    }
    KeptOverRun(Initial, leads, RuleInvariant, run);
  }

  ghost predicate Protected(rules: seq<NativeRule>, name: string) {
    HasRuleFor(rules, name) && NoneMapsTo(rules, name)
  }

  lemma LeadKeepsNameGone(env: Environment, s: State, t: State, name: string)
    requires RuleInvariant(s) && Leads(env, s, t)
    requires Protected(s.rules, name) && Protected(t.rules, name) && NameGone(s, name)
    ensures NameGone(t, name)
  {
    var step :| Enabled(env, s, step) && t == Perform(env, s, step);
    StepKeepsNameGone(env, s, step, name);
  }

  /** A point of a run, or a stretch of it, where the name has a rule and no rule maps to it. */
  ghost predicate ProtectedAt(run: seq<State>, name: string, i: nat)
    requires i < |run|
  {
    RuleInvariant(run[i]) && Protected(run[i].rules, name)
  }

  lemma {:induction false} NameStaysGone(env: Environment, run: seq<State>, start: nat, end: nat, name: string)
    requires start <= end < |run|
    requires forall i | start <= i <= end :: ProtectedAt(run, name, i)
    requires forall i | start < i <= end :: Leads(env, run[i - 1], run[i])
    requires NameGone(run[start], name)
    ensures NameGone(run[end], name)
  {
    hide NameGone, Leads, RuleInvariant, Protected;
    if start < end {
      NameStaysGone(env, run, start, end - 1, name);
      assert ProtectedAt(run, name, end - 1) && ProtectedAt(run, name, end);
      LeadKeepsNameGone(env, run[end - 1], run[end], name);
    }
  }

  /** The scan misses nothing: as long as the rule exists and no rule maps to its name, nothing is stored
      under that name, in every interleaving of submissions, rule creations and rule deletions. */
  lemma ScanMissesNothing(env: Environment, run: seq<State>, start: nat, end: nat, tx: nat)
    requires IsRun(Initial, LeadsIn(env), run) && start < end < |run|
    requires Enabled(env, run[start], CommitCreate(tx)) && run[start + 1] == Perform(env, run[start], CommitCreate(tx))
    requires run[start].open[tx].scan
    requires forall i | start < i <= end :: Protected(run[i].rules, run[start].open[tx].rule.value)
    ensures NameGone(run[end], run[start].open[tx].rule.value)
    ensures forall row | row in run[end].rows ::
              (if row.data.author == "" then FormatInt(row.data.authorID) else row.data.author)
              != run[start].open[tx].rule.value
  {
    var name := run[start].open[tx].rule.value;
    RulesHold(env, run);
    assert RuleInvariant(run[start]) && Protected(run[start + 1].rules, name);
    ScanClearsName(env, run[start], tx, name);
    forall i | start + 1 < i <= end
      ensures Leads(env, run[i - 1], run[i])
    {
      assert LeadsIn(env)(run[i - 1], run[i - 1 + 1]);
    }
    forall i | start < i <= end
      ensures ProtectedAt(run, name, i)
    {
    }
    NameStaysGone(env, run, start + 1, end, name);
  }
}
