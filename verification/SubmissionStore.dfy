/** The three transactions as the program writes them: each run alone is a run of the submission system. */
module SubmissionStore {
  import opened Collecting
  import opened Decimal
  import opened Domain
  import opened NativeRules
  import opened Text
  import opened Runs
  import opened Submission
  import opened SubmissionLaws

  datatype Submitted = Stored | Duplicate | VideoDeleted | SubmissionDenied | StoredRuleInvalid

  datatype Creation = Created(rule: NativeRule, replaced: nat) | RuleRefused | RuleExists

  // ----- each transaction alone -----

  /** What a submission comes to. */
  function Verdict(env: Environment, s: State, vid: string, original: DanmakuData, ip: Option<string>, now: int)
    : Submitted
  {
    match Apply(env.lib, s.rules, original, ip)
    case InvalidRule => StoredRuleInvalid
    case Denied => SubmissionDenied
    case Kept(_, _) =>
      if IsDeleted(s.videos, vid) then VideoDeleted
      else if HasDuplicate(s.rows, vid, ip, PointerValue(original.text), now - WINDOW) then Duplicate
      else Stored
  }

  function NewRow(env: Environment, s: State, vid: string, original: DanmakuData, ip: Option<string>, now: int): Row
    requires Apply(env.lib, s.rules, original, ip).Kept?
  {
    var outcome := Apply(env.lib, s.rules, original, ip);
    Row(vid, ip, outcome.data, outcome.deleted, now)
  }

  /** A denied submission leaves no trace, a duplicate makes its video known, a stored one adds one row. */
  function InsertAlone(env: Environment, s: State, vid: string, original: DanmakuData, ip: Option<string>, now: int)
    : State
  {
    match Verdict(env, s, vid, original, ip, now)
    case Stored =>
      s.(rows := s.rows + [NewRow(env, s, vid, original, ip, now)], videos := WithVideo(s.videos, vid))
    case Duplicate => s.(videos := WithVideo(s.videos, vid))
    case _ => s
  }

  /** The new rule, and its replacement on every row that the scan finds. */
  function CreateAlone(s: State, rule: NativeRule, scan: bool): State {
    var drawn := s.(nextRule := s.nextRule + 1);
    if HasRule(s.rules, rule) then drawn
    else
      drawn.(rules := s.rules + [rule.(id := s.nextRule)],
             rows := Rewrite(s.rows, StoredBy(s.rows, scan, rule.value), rule.replacement))
  }

  function DeleteAlone(s: State, kind: Kind, id: nat): State {
    s.(rules := Without(s.rules, kind, id))
  }

  ghost predicate Possible(env: Environment, s: State) {
    Reachable(Initial, LeadsIn(env), s)
  }

  lemma StepPossible(env: Environment, s: State, step: Step)
    requires Possible(env, s) && Enabled(env, s, step)
    ensures Possible(env, Perform(env, s, step))
  {
    assert Leads(env, s, Perform(env, s, step));
    NextReachable(Initial, LeadsIn(env), s, Perform(env, s, step));
  }

  /** A submission that has its rules runs on to its verdict. */
  lemma RuledReachable(env: Environment, s: State, tx: nat)
    requires Inserting(s, tx) && s.open[tx].stage.Ruled? && s.open.Keys == {tx} && Possible(env, s)
    ensures var t := s.open[tx];
            Possible(env,
              if IsDeleted(s.videos, t.vid) then Close(s, tx)
              else if HasDuplicate(s.rows, t.vid, t.ip, PointerValue(t.original.text), t.now - WINDOW)
              then Close(s, tx).(videos := WithVideo(s.videos, t.vid))
              else Close(s, tx).(rows := s.rows + [Row(t.vid, t.ip, t.stage.data, t.stage.deleted, t.now)],
                                 videos := WithVideo(s.videos, t.vid)))
  {
    hide Possible, HasDuplicate, IsDeleted, WithVideo, LockNumber;
    StepPossible(env, s, LockKey(tx));
    var locked := Perform(env, s, LockKey(tx));
    StepPossible(env, locked, CheckDuplicate(tx));
    var checked := Perform(env, locked, CheckDuplicate(tx));
    assert locked.open - {tx} == s.open - {tx};
    if tx in checked.open {
      StepPossible(env, checked, CommitInsert(tx));
      assert checked.open - {tx} == s.open - {tx};
    }
  }

  lemma InsertReachable(env: Environment, s: State, vid: string, original: DanmakuData, ip: Option<string>, now: int)
    requires s.open == map[] && Possible(env, s)
    ensures Possible(env, InsertAlone(env, s, vid, original, ip, now))
  {
    var tx: nat := 0;
    StepPossible(env, s, BeginInsert(tx, vid, original, ip, now));
    var begun := Perform(env, s, BeginInsert(tx, vid, original, ip, now));
    StepPossible(env, begun, LockRulesShared(tx));
    var locked := Perform(env, begun, LockRulesShared(tx));
    StepPossible(env, locked, ReadRules(tx));
    var ruled := Perform(env, locked, ReadRules(tx));
    if tx in ruled.open {
      RuledReachable(env, ruled, tx);
      assert Close(ruled, tx) == s;
    } else {
      assert ruled == s;
    }
  }

  lemma CreateReachable(env: Environment, s: State, kind: Kind, value: string, replacement: string, scan: bool)
    requires s.open == map[] && Possible(env, s)
    requires Normalized(kind, value, replacement) && (scan ==> kind == Authors)
    ensures Possible(env, CreateAlone(s, NativeRule(0, kind, value, replacement), scan))
  {
    hide HasRule, StoredBy, Rewrite, Possible;
    var tx: nat := 0;
    StepPossible(env, s, BeginCreate(tx, kind, value, replacement, scan));
    var begun := Perform(env, s, BeginCreate(tx, kind, value, replacement, scan));
    StepPossible(env, begun, LockRulesExclusive(tx));
    var locked := Perform(env, begun, LockRulesExclusive(tx));
    StepPossible(env, locked, InsertRule(tx));
    var inserted := Perform(env, locked, InsertRule(tx));
    if tx in inserted.open {
      StepPossible(env, inserted, ScanRows(tx));
      var scanned := Perform(env, inserted, ScanRows(tx));
      StepPossible(env, scanned, CommitCreate(tx));
      assert Close(scanned, tx).open == s.open;
    } else {
      assert inserted == s.(nextRule := s.nextRule + 1);
    }
  }

  lemma DeleteReachable(env: Environment, s: State, kind: Kind, id: nat)
    requires s.open == map[] && Possible(env, s)
    ensures Possible(env, DeleteAlone(s, kind, id))
  {
    var tx: nat := 0;
    StepPossible(env, s, BeginDelete(tx, kind, id));
    var begun := Perform(env, s, BeginDelete(tx, kind, id));
    StepPossible(env, begun, LockRulesExclusive(tx));
    var locked := Perform(env, begun, LockRulesExclusive(tx));
    StepPossible(env, locked, CommitDelete(tx));
    assert Close(locked, tx).open == s.open;
  }

  lemma NormalFormFits(lib: Library, kind: Kind, value: string, replacement: string, scan: bool)
    requires NormalForm(lib, kind, value, replacement, scan).Some?
    ensures Normalized(kind, NormalForm(lib, kind, value, replacement, scan).value, replacement)
    ensures scan ==> kind == Authors
  {
    assert TrimSpace("") == "";
  }

  // ----- the program -----

  /** What is written to the hash of the duplicate lock: each value behind its length. */
  method HashInput(vid: string, ip: Option<string>, text: string) returns (written: string)
    ensures written == LockText(vid, ip, text)
    ensures var address := if ip.Some? then ip.value else "";
            written == BigEndian(20, 8) + "danmaku:duplicate:v1" + (BigEndian(|address|, 8) + address)
                       + (BigEndian(|vid|, 8) + vid) + (BigEndian(|text|, 8) + text)
  {
    var ipText := "";
    if ip.Some? {
      ipText := ip.value;
    }
    var values := ["danmaku:duplicate:v1", ipText, vid, text];
    written := "";
    for n := 0 to |values|
      invariant written == Collect(Sized, values[..n])
    {
      CollectNext(Sized, values, n);
      var size := BigEndian(|values[n]|, 8);
      written := written + size;
      written := written + values[n];
    }
    assert values[..4] == values;
    FourSized(values);
  }

  lemma FourSized(values: seq<string>)
    requires |values| == 4
    ensures Collect(Sized, values) == Sized(values[0]) + Sized(values[1]) + Sized(values[2]) + Sized(values[3])
  {
    hide Sized;
    CollectNext(Sized, values, 0);
    CollectNext(Sized, values, 1);
    CollectNext(Sized, values, 2);
    CollectNext(Sized, values, 3);
    assert values[..4] == values;
  }

  /** The name under which a comment is shown. */
  ghost function ShownName(data: DanmakuData): string {
    if data.author == "" then FormatInt(data.authorID) else data.author
  }

  class Database {
    const env: Environment
    var rows: seq<Row>
    var rules: seq<NativeRule>
    var nextRule: nat
    var videos: map<string, bool>

    ghost function Tables(): State
      reads this
    {
      State(rows, rules, nextRule, videos, map[])
    }

    ghost predicate Valid()
      reads this
    {
      Possible(env, Tables())
    }

    constructor (env: Environment)
      ensures Valid() && Tables() == Initial && this.env == env
    {
      this.env := env;
      rows, rules, nextRule, videos := [], [], 1, map[];
      InitialReachable(Initial, LeadsIn(env));
    }

    method FindDuplicate(vid: string, ip: Option<string>, text: string, since: int) returns (found: bool)
      ensures found == HasDuplicate(rows, vid, ip, text, since)
      ensures found <==> exists row | row in rows ::
                && row.vid == vid && row.ip == ip && row.created >= since
                && (if row.data.text.Some? then row.data.text.value else "") == text
    {
      for n := 0 to |rows|
        invariant !HasDuplicate(rows[..n], vid, ip, text, since)
      {
        if IsDuplicate(rows[n], vid, ip, text, since) {
          return true;
        }
      }
      assert rows[..|rows|] == rows;
      return false;
    }

    method Insert(vid: string, original: DanmakuData, ip: Option<string>, now: int) returns (result: Submitted)
      requires Valid()
      modifies `rows, `videos
      ensures Valid() && Tables() == InsertAlone(env, old(Tables()), vid, original, ip, now)
      ensures result == Verdict(env, old(Tables()), vid, original, ip, now)
      ensures result == SubmissionDenied || result == StoredRuleInvalid <==>
                exists r | r in rules && r.kind == IPs :: env.lib.test(r.value, ip) != Outside
      ensures result == VideoDeleted <==>
                && (forall r | r in rules && r.kind == IPs :: env.lib.test(r.value, ip) == Outside)
                && vid in old(videos) && old(videos)[vid]
      ensures result == Duplicate <==>
                && (forall r | r in rules && r.kind == IPs :: env.lib.test(r.value, ip) == Outside)
                && !(vid in old(videos) && old(videos)[vid])
                && exists row | row in old(rows) ::
                     && row.vid == vid && row.ip == ip && row.created >= now - 30
                     && (if row.data.text.Some? then row.data.text.value else "")
                     == (if original.text.Some? then original.text.value else "")
      ensures result != Stored ==> rows == old(rows)
      ensures result == Stored ==>
                && |rows| == |old(rows)| + 1 && rows[..|old(rows)|] == old(rows)
                && var row := rows[|old(rows)|];
                   && row.vid == vid && row.ip == ip && row.created == now
                   && row.data.(author := original.author) == original
                   && (row.deleted <==>
                       (exists r, before: string, after: string :: r in rules && r.kind == Keywords
                          && env.lib.lower(if original.text.Some? then original.text.value else "")
                          == before + r.value + after))
                   && (forall r | r in rules && r.kind == Authors && r.value == ShownName(original) ::
                         row.data.author == r.replacement)
                   && ((forall r | r in rules && r.kind == Authors :: r.value != ShownName(original))
                       ==> row.data == original)
      ensures videos == if (result == Stored || result == Duplicate) && vid !in old(videos)
                        then old(videos)[vid := false] else old(videos)
    {
      InsertReachable(env, Tables(), vid, original, ip, now);
      ReachableIsRight(env, Tables());
      hide Possible, RuleInvariant, Spaced, Apply, InsertAlone, Verdict;
      assert Unique(rules) by {
        RulesAreUnique(Tables());
      }
      InsertUnfolds(env, Tables(), vid, original, ip, now);
      var outcome := ApplyNativeRules(env.lib, original, ip, rules);
      if outcome == Denied {
        return SubmissionDenied;
      }
      if outcome == InvalidRule {
        return StoredRuleInvalid;
      }
      if IsDeleted(videos, vid) {
        return VideoDeleted;
      }
      videos := WithVideo(videos, vid);
      var duplicate := FindDuplicate(vid, ip, PointerValue(original.text), now - WINDOW);
      if duplicate {
        return Duplicate;
      }
      rows := rows + [Row(vid, ip, outcome.data, outcome.deleted, now)];
      return Stored;
    }

    /** The historical replacement: every row stored under the name goes under the replacement. */
    method ReplaceAuthor(name: string, replacement: string) returns (replaced: nat)
      modifies `rows
      ensures rows == Rewrite(old(rows), StoredBy(old(rows), true, name), replacement)
      ensures replaced == |StoredBy(old(rows), true, name)|
      ensures |rows| == |old(rows)|
      ensures forall i | 0 <= i < |rows| ::
                rows[i] == if ShownName(old(rows)[i].data) == name
                           then old(rows)[i].(data := old(rows)[i].data.(author := replacement)) else old(rows)[i]
    {
      hide EffectiveAuthor, Replaced;
      replaced := 0;
      ghost var hits := StoredBy(rows, true, name);
      var n := 0;
      while n < |rows|
        invariant 0 <= n <= |rows| == |old(rows)|
        invariant forall i | 0 <= i < |rows| ::
                    rows[i] == if i < n && i in hits then Replaced(old(rows)[i], replacement) else old(rows)[i]
        invariant replaced == |StoredBy(old(rows)[..n], true, name)|
      {
        StoredNext(old(rows), n, name);
        if EffectiveAuthor(rows[n].data) == name {
          rows := rows[n := Replaced(rows[n], replacement)];
          replaced := replaced + 1;
        }
        n := n + 1;
      }
      assert old(rows)[..n] == old(rows);
      ReplacementMeaning(old(rows), name, replacement);
    }

    method CreateNativeRule(kind: Kind, input: string, replacement: string, scan: bool) returns (result: Creation)
      requires Valid()
      modifies `rules, `nextRule, `rows
      ensures Valid()
      ensures match NormalForm(env.lib, kind, input, replacement, scan)
              case None => result == RuleRefused && Tables() == old(Tables())
              case Some(value) =>
                var rule := NativeRule(old(nextRule), kind, value, replacement);
                && Tables() == CreateAlone(old(Tables()), rule, scan)
                && (result == RuleExists <==> exists r :: r in old(rules) && r.kind == kind && r.value == value)
                && (result != RuleExists ==> result == Created(rule, |StoredBy(old(rows), scan, value)|))
      ensures rules == if result.Created? then old(rules) + [result.rule] else old(rules)
      ensures !(result.Created? && scan) ==> rows == old(rows)
      ensures result.Created? && scan ==> |rows| == |old(rows)| && forall i | 0 <= i < |rows| ::
                rows[i] == if ShownName(old(rows)[i].data) == result.rule.value
                           then old(rows)[i].(data := old(rows)[i].data.(author := replacement)) else old(rows)[i]
    {
      var normal := NormalizeNativeRule(env.lib, kind, input, replacement, scan);
      if normal.None? {
        return RuleRefused;
      }
      NormalFormFits(env.lib, kind, input, replacement, scan);
      hide *;
      result := CreateNormalized(kind, normal.value, replacement, scan);
    }

    /** The transaction, once the value is in its normal form. */
    method CreateNormalized(kind: Kind, value: string, replacement: string, scan: bool) returns (result: Creation)
      requires Valid() && Normalized(kind, value, replacement) && (scan ==> kind == Authors)
      modifies `rules, `nextRule, `rows
      ensures Valid()
      ensures Tables() == CreateAlone(old(Tables()), NativeRule(old(nextRule), kind, value, replacement), scan)
      ensures result == RuleExists <==> exists r :: r in old(rules) && r.kind == kind && r.value == value
      ensures result != RuleExists ==>
                && result.Created? && result.rule == NativeRule(old(nextRule), kind, value, replacement)
                && result.replaced == |StoredBy(old(rows), scan, value)|
      ensures rules == if result.Created? then old(rules) + [result.rule] else old(rules)
      ensures !(result.Created? && scan) ==> rows == old(rows)
      ensures result.Created? && scan ==> |rows| == |old(rows)| && forall i | 0 <= i < |rows| ::
                rows[i] == if ShownName(old(rows)[i].data) == value
                           then old(rows)[i].(data := old(rows)[i].data.(author := replacement)) else old(rows)[i]
    {
      var rule := NativeRule(nextRule, kind, value, replacement);
      CreationUnfolds(env, Tables(), rule, scan);
      NothingToScan(rows, value, replacement);
      hide Possible, Rewrite, StoredBy, HasRule, ShownName, CreateAlone;
      nextRule := nextRule + 1;
      if HasRule(rules, rule) {
        return RuleExists;
      }
      rules := rules + [rule];
      var replaced := 0;
      if scan {
        replaced := ReplaceAuthor(value, replacement);
      }
      return Created(rule, replaced);
    }

    method DeleteNativeRule(kind: Kind, id: int) returns (valid: bool, deleted: bool)
      requires Valid()
      modifies `rules
      ensures Valid() && valid == (id >= 1)
      ensures forall r :: r in rules <==> r in old(rules) && !(id >= 1 && r.kind == kind && r.id == id)
      ensures deleted <==> id >= 1 && exists rule :: rule in old(rules) && rule.kind == kind && rule.id == id
      ensures Tables() == if id >= 1 then DeleteAlone(old(Tables()), kind, id) else old(Tables())
    {
      if id < 1 {
        return false, false;
      }
      DeleteReachable(env, Tables(), kind, id);
      var kept := Without(rules, kind, id);
      WithoutShortens(rules, kind, id);
      valid, deleted := true, |kept| < |rules|;
      rules := kept;
    }
  }

  lemma HasRuleMeaning(rules: seq<NativeRule>, rule: NativeRule)
    ensures HasRule(rules, rule) <==> exists r :: r in rules && r.kind == rule.kind && r.value == rule.value
  {
    if HasRule(rules, rule) {
      var i :| 0 <= i < |rules| && SameRule(rules[i], rule);
      assert rules[i] in rules;
    }
  }

  lemma ReplacementMeaning(rows: seq<Row>, name: string, replacement: string)
    ensures forall i | 0 <= i < |rows| ::
              (Rewrite(rows, StoredBy(rows, true, name), replacement)[i]
               == if ShownName(rows[i].data) == name then rows[i].(data := rows[i].data.(author := replacement))
                  else rows[i])
  {
  }

  lemma RulesAreUnique(s: State)
    requires RuleInvariant(s)
    ensures Unique(s.rules)
  {
  }

  lemma InsertUnfolds(env: Environment, s: State, vid: string, original: DanmakuData, ip: Option<string>, now: int)
    ensures var outcome, verdict := Apply(env.lib, s.rules, original, ip), Verdict(env, s, vid, original, ip, now);
            var t := InsertAlone(env, s, vid, original, ip, now);
            && (outcome == Denied ==> verdict == SubmissionDenied)
            && (outcome == InvalidRule ==> verdict == StoredRuleInvalid)
            && (outcome.Kept? ==>
                  (verdict == if IsDeleted(s.videos, vid) then VideoDeleted
                              else if HasDuplicate(s.rows, vid, ip, PointerValue(original.text), now - WINDOW)
                              then Duplicate else Stored))
            && (outcome.Kept? && verdict == Stored ==>
                  (t == s.(rows := s.rows + [Row(vid, ip, outcome.data, outcome.deleted, now)],
                           videos := WithVideo(s.videos, vid))))
            && (verdict == Duplicate ==> t == s.(videos := WithVideo(s.videos, vid)))
            && (verdict != Stored && verdict != Duplicate ==> t == s)
  {
  }

  lemma CreationUnfolds(env: Environment, s: State, rule: NativeRule, scan: bool)
    requires s.open == map[] && Possible(env, s) && rule.id == s.nextRule
    requires Normalized(rule.kind, rule.value, rule.replacement) && (scan ==> rule.kind == Authors)
    ensures Possible(env, CreateAlone(s, rule, scan))
    ensures CreateAlone(s, rule, scan)
         == if HasRule(s.rules, rule) then s.(nextRule := s.nextRule + 1)
            else s.(nextRule := s.nextRule + 1, rules := s.rules + [rule],
                    rows := Rewrite(s.rows, StoredBy(s.rows, scan, rule.value), rule.replacement))
    ensures HasRule(s.rules, rule) <==> exists r :: r in s.rules && r.kind == rule.kind && r.value == rule.value
  {
    CreateReachable(env, s, rule.kind, rule.value, rule.replacement, scan);
    HasRuleMeaning(s.rules, rule);
    assert forall r :: SameRule(r, rule) <==> SameRule(r, rule.(id := 0));
    hide Possible, Rewrite, StoredBy;
    assert CreateAlone(s, rule, scan) == CreateAlone(s, rule.(id := 0), scan);
  }

  lemma NothingToScan(rows: seq<Row>, value: string, replacement: string)
    ensures StoredBy(rows, false, value) == {} && Rewrite(rows, {}, replacement) == rows
  {
  }

  lemma StoredNext(rows: seq<Row>, n: nat, name: string)
    requires n < |rows|
    ensures |StoredBy(rows[..n + 1], true, name)|
         == |StoredBy(rows[..n], true, name)| + if EffectiveAuthor(rows[n].data) == name then 1 else 0
  {
    var before, after := StoredBy(rows[..n], true, name), StoredBy(rows[..n + 1], true, name);
    assert after == if EffectiveAuthor(rows[n].data) == name then before + {n} else before;
  }

  lemma {:induction false} WithoutShortens(rules: seq<NativeRule>, kind: Kind, id: nat)
    ensures |Without(rules, kind, id)| <= |rules|
    ensures |Without(rules, kind, id)| < |rules| <==> exists rule :: rule in rules && rule.kind == kind && rule.id == id
  {
    if rules != [] {
      WithoutShortens(rules[1..], kind, id);
      assert rules == [rules[0]] + rules[1..];
    }
  }

  // ----- laws -----

  /** However the transactions interleaved, the stored rows are spaced and the rules are well kept. */
  lemma ReachableIsRight(env: Environment, s: State)
    requires Possible(env, s)
    ensures Spaced(s.rows) && RuleInvariant(s)
  {
    var run :| IsRun(Initial, (a, b) => Leads(env, a, b), run) && run[|run| - 1] == s;
    DuplicateGuard(env, run, |run| - 1);
    RulesHold(env, run);
  }

  /** Repeating a stored submission within the window is refused, whatever the rules made of it and whatever has
      happened since: scans, other submissions, rules made and dropped. */
  lemma RepetitionRefused(env: Environment, s: State, vid: string, original: DanmakuData, ip: Option<string>, now: int,
                          run: seq<State>, again: DanmakuData, later: int)
    requires Verdict(env, s, vid, original, ip, now) == Stored
    requires run != [] && run[0] == InsertAlone(env, s, vid, original, ip, now)
    requires forall k | 0 <= k < |run| - 1 :: LeadsIn(env)(run[k], run[k + 1])
    requires PointerValue(again.text) == PointerValue(original.text) && later <= now + WINDOW
    ensures Verdict(env, run[|run| - 1], vid, again, ip, later) != Stored
  {
    ApplyKeeps(env.lib, s.rules, original, ip, original, false);
    var i, row := |s.rows|, NewRow(env, s, vid, original, ip, now);
    RowStays(env, run, i, row);
    assert IsDuplicate(run[|run| - 1].rows[i], vid, ip, PointerValue(again.text), later - WINDOW);
  }

  /** What lets a submission through, as a caller can check it beforehand. */
  ghost predicate LetThrough(env: Environment, s: State, vid: string, original: DanmakuData, ip: Option<string>,
                             now: int) {
    && (forall r | r in s.rules :: !Broken(env.lib, r, ip) && !MatchesIP(env.lib, r, ip))
    && !IsDeleted(s.videos, vid)
    && !HasDuplicate(s.rows, vid, ip, PointerValue(original.text), now - WINDOW)
  }

  lemma LetThroughIsStored(env: Environment, s: State, vid: string, original: DanmakuData, ip: Option<string>, now: int)
    ensures Verdict(env, s, vid, original, ip, now) == Stored <==> LetThrough(env, s, vid, original, ip, now)
  {
    ApplyFails(env.lib, s.rules, original, ip, original, false);
  }

  /** Why a scan needs that no rule maps to its name: such a rule brings the name back with the next submission
      under the mapped name that nothing else stops. */
  lemma MappedNameReturns(env: Environment, s: State, rule: NativeRule, vid: string, original: DanmakuData,
                          ip: Option<string>, now: int)
    requires RulesRight(s.rules) && rule in s.rules && rule.kind == Authors && EffectiveAuthor(original) == rule.value
    requires LetThrough(env, s, vid, original, ip, now)
    ensures !NameGone(InsertAlone(env, s, vid, original, ip, now), rule.replacement)
  {
    LetThroughIsStored(env, s, vid, original, ip, now);
    StoredUnder(env.lib, s.rules, original, ip, rule.replacement);
    var t := InsertAlone(env, s, vid, original, ip, now);
    assert t.rows[|s.rows|] in t.rows;
  }

  /** It does happen: with a to b and a scan for b to c, the name b is gone, has its rule, and comes back. */
  lemma ScanUndone(env: Environment, now: int) returns (s: State, original: DanmakuData)
    ensures Possible(env, s) && HasRuleFor(s.rules, "b") && NameGone(s, "b")
    ensures LetThrough(env, s, "v", original, None, now)
    ensures !NameGone(InsertAlone(env, s, "v", original, None, now), "b")
  {
    var first, second := NativeRule(0, Authors, "a", "b"), NativeRule(0, Authors, "b", "c");
    InitialReachable(Initial, LeadsIn(env));
    CreateReachable(env, Initial, Authors, "a", "b", false);
    var mapped := CreateAlone(Initial, first, false);
    CreateReachable(env, mapped, Authors, "b", "c", true);
    s := CreateAlone(mapped, second, true);
    original := DanmakuData(Finite(0.0), 1, 25, 0, 0, 0, "a", 0, Some("hello"));
    ReachableIsRight(env, s);
    assert s.rows == [] && s.rules == [first.(id := 1), second.(id := 2)];
    MappedNameReturns(env, s, s.rules[0], "v", original, None, now);
    assert s.rules[1] in s.rules;
  }
}
