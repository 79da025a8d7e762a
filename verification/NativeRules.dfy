/** Submission rules: internal/store/native_rules.go. Lower-casing, counting characters and network prefixes
    belong to libraries, so they are parameters. */
module NativeRules {
  import opened Decimal
  import opened Domain
  import opened Text

  datatype Kind = Keywords | Authors | IPs

  datatype NativeRule = NativeRule(id: nat, kind: Kind, value: string, replacement: string)

  datatype PrefixTest = Unparsable | Inside | Outside

  /** `prefix` is the canonical form of a network prefix or address, if the text is one. */
  datatype Library = Library(
    lower: string -> string,
    characters: string -> nat,
    prefix: string -> Option<string>,
    test: (string, Option<string>) -> PrefixTest)

  datatype Outcome = Kept(data: DanmakuData, deleted: bool) | Denied | InvalidRule

  /** The name a comment goes under: its author, or else its numeric author. */
  function EffectiveAuthor(data: DanmakuData): string {
    if data.author == "" then FormatInt(data.authorID) else data.author
  }

  predicate OccursAt(text: string, part: string, i: nat) {
    i + |part| <= |text| && text[i..i + |part|] == part
  }

  predicate Contains(text: string, part: string) {
    exists i: nat | i <= |text| :: OccursAt(text, part, i)
  }

  // ----- normalization -----

  const MAX_CHARACTERS := 200

  /** A text that a rule may hold: not only white space, not too long, and without a zero byte. */
  predicate Presentable(lib: Library, text: string) {
    TrimSpace(text) != "" && lib.characters(text) <= MAX_CHARACTERS && (0 as char) !in text
  }

  /** The value under which a rule is kept, or nothing when the rule is refused. */
  function NormalForm(lib: Library, kind: Kind, value: string, replacement: string, scan: bool): Option<string> {
    match kind
    case Authors =>
      if Presentable(lib, value) && Presentable(lib, replacement) && value != replacement then Some(value) else None
    case Keywords =>
      if Presentable(lib, TrimSpace(value)) && replacement == "" && !scan then Some(lib.lower(TrimSpace(value)))
      else None
    case IPs =>
      if Presentable(lib, TrimSpace(value)) && replacement == "" && !scan then lib.prefix(TrimSpace(value)) else None
  }

  method NormalizeNativeRule(lib: Library, kind: Kind, value: string, replacement: string, scan: bool)
    returns (normal: Option<string>)
    ensures normal == NormalForm(lib, kind, value, replacement, scan)
    ensures kind == Authors ==>
              if && TrimSpace(value) != "" && lib.characters(value) <= 200 && (0 as char) !in value
                 && TrimSpace(replacement) != "" && lib.characters(replacement) <= 200 && (0 as char) !in replacement
                 && value != replacement
              then normal == Some(value) else normal == None
    ensures kind != Authors ==>
              if && TrimSpace(TrimSpace(value)) != "" && lib.characters(TrimSpace(value)) <= 200
                 && (0 as char) !in TrimSpace(value) && replacement == "" && !scan
              then normal == (if kind == Keywords then Some(lib.lower(TrimSpace(value)))
                              else lib.prefix(TrimSpace(value)))
              else normal == None
  {
    var trimmed := value;
    if kind != Authors {
      trimmed := TrimSpace(value);
    }
    if TrimSpace(trimmed) == "" || lib.characters(trimmed) > MAX_CHARACTERS || (0 as char) in trimmed {
      return None;
    }
    if kind == Authors {
      if TrimSpace(replacement) == "" || lib.characters(replacement) > MAX_CHARACTERS
         || (0 as char) in replacement || trimmed == replacement {
        return None;
      }
    } else if replacement != "" || scan {
      return None;
    }
    if kind == Keywords {
      return Some(lib.lower(trimmed));
    }
    if kind == IPs {
      return lib.prefix(trimmed);
    }
    return Some(trimmed);
  }

  // ----- application -----

  /** The three ways in which a rule can match a submission. */
  predicate MatchesKeyword(lib: Library, rule: NativeRule, original: DanmakuData) {
    rule.kind == Keywords && Contains(lib.lower(PointerValue(original.text)), rule.value)
  }

  predicate MatchesAuthor(rule: NativeRule, original: DanmakuData) {
    rule.kind == Authors && EffectiveAuthor(original) == rule.value
  }

  predicate MatchesIP(lib: Library, rule: NativeRule, ip: Option<string>) {
    rule.kind == IPs && lib.test(rule.value, ip) == Inside
  }

  predicate Broken(lib: Library, rule: NativeRule, ip: Option<string>) {
    rule.kind == IPs && lib.test(rule.value, ip) == Unparsable
  }

  /** The rules applied one after the other to what the earlier ones left. */
  function ApplyFrom(lib: Library, rules: seq<NativeRule>, original: DanmakuData, ip: Option<string>,
                     data: DanmakuData, deleted: bool): Outcome
  {
    if rules == [] then Kept(data, deleted)
    else
      var rule, rest := rules[0], rules[1..];
      match rule.kind
      case IPs =>
        if Broken(lib, rule, ip) then InvalidRule
        else if MatchesIP(lib, rule, ip) then Denied
        else ApplyFrom(lib, rest, original, ip, data, deleted)
      case Keywords => ApplyFrom(lib, rest, original, ip, data, deleted || MatchesKeyword(lib, rule, original))
      case Authors =>
        ApplyFrom(lib, rest, original, ip,
          if MatchesAuthor(rule, original) then data.(author := rule.replacement) else data, deleted)
  }

  function Apply(lib: Library, rules: seq<NativeRule>, original: DanmakuData, ip: Option<string>): Outcome {
    ApplyFrom(lib, rules, original, ip, original, false)
  }

  /** Unique per kind and value, as the table's constraint has it. */
  ghost predicate Unique(rules: seq<NativeRule>) {
    forall r, q | r in rules && q in rules && r.kind == q.kind && r.value == q.value :: r == q
  }

  lemma {:induction false} ApplyFails(lib: Library, rules: seq<NativeRule>, original: DanmakuData, ip: Option<string>,
                                      data: DanmakuData, deleted: bool)
    ensures var outcome := ApplyFrom(lib, rules, original, ip, data, deleted);
            && (outcome.Kept? <==> forall r | r in rules :: !Broken(lib, r, ip) && !MatchesIP(lib, r, ip))
            && ((forall r | r in rules :: !Broken(lib, r, ip)) ==> outcome != InvalidRule)
  {
    if rules != [] {
      var rule := rules[0];
      assert rules == [rule] + rules[1..];
      var next := if MatchesAuthor(rule, original) then data.(author := rule.replacement) else data;
      ApplyFails(lib, rules[1..], original, ip, next, deleted || MatchesKeyword(lib, rule, original));
    }
  }

  lemma {:induction false} ApplyKeeps(lib: Library, rules: seq<NativeRule>, original: DanmakuData, ip: Option<string>,
                                      data: DanmakuData, deleted: bool)
    requires ApplyFrom(lib, rules, original, ip, data, deleted).Kept?
    ensures var outcome := ApplyFrom(lib, rules, original, ip, data, deleted);
            && (outcome.deleted <==> deleted || exists r :: r in rules && MatchesKeyword(lib, r, original))
            && outcome.data == data.(author := outcome.data.author)
            && (Unique(rules) ==>
                  forall r | r in rules && MatchesAuthor(r, original) :: outcome.data.author == r.replacement)
            && ((forall r | r in rules :: !MatchesAuthor(r, original)) ==> outcome.data == data)
  {
    hide EffectiveAuthor, Contains;
    if rules != [] {
      var rule, rest := rules[0], rules[1..];
      assert rules == [rule] + rest;
      var next := if MatchesAuthor(rule, original) then data.(author := rule.replacement) else data;
      ApplyKeeps(lib, rest, original, ip, next, deleted || MatchesKeyword(lib, rule, original));
    }
  }

  /** What the rules decide, told by membership alone: denial, soft deletion, and the one mapping of the author. */
  lemma ApplyMeaning(lib: Library, rules: seq<NativeRule>, original: DanmakuData, ip: Option<string>)
    requires Unique(rules) && forall r | r in rules :: !Broken(lib, r, ip)
    ensures var outcome := Apply(lib, rules, original, ip);
            && outcome != InvalidRule
            && (outcome == Denied <==> exists r :: r in rules && MatchesIP(lib, r, ip))
            && (outcome.Kept? ==>
                  && (outcome.deleted <==> exists r :: r in rules && MatchesKeyword(lib, r, original))
                  && outcome.data == original.(author := outcome.data.author)
                  && (forall r | r in rules && MatchesAuthor(r, original) :: outcome.data.author == r.replacement)
                  && ((forall r | r in rules :: !MatchesAuthor(r, original)) ==> outcome.data == original))
  {
    ApplyFails(lib, rules, original, ip, original, false);
    if Apply(lib, rules, original, ip).Kept? {
      ApplyKeeps(lib, rules, original, ip, original, false);
    }
  }

  /** Some rule does not parse and another denies: the two early returns compete. */
  ghost predicate Conflict(lib: Library, rules: seq<NativeRule>, ip: Option<string>) {
    (exists r :: r in rules && Broken(lib, r, ip)) && (exists r :: r in rules && MatchesIP(lib, r, ip))
  }

  lemma {:induction false} ApplyWithoutDenial(lib: Library, rules: seq<NativeRule>, original: DanmakuData,
                                              ip: Option<string>, data: DanmakuData, deleted: bool)
    requires forall r | r in rules :: !MatchesIP(lib, r, ip)
    ensures ApplyFrom(lib, rules, original, ip, data, deleted) != Denied
  {
    if rules != [] {
      var rule := rules[0];
      assert rules == [rule] + rules[1..];
      var next := if MatchesAuthor(rule, original) then data.(author := rule.replacement) else data;
      ApplyWithoutDenial(lib, rules[1..], original, ip, next, deleted || MatchesKeyword(lib, rule, original));
    }
  }

  /** Without such a conflict the order of the rules does not matter. */
  lemma OrderIndependent(lib: Library, rules: seq<NativeRule>, others: seq<NativeRule>, original: DanmakuData,
                         ip: Option<string>)
    requires Unique(rules) && multiset(rules) == multiset(others) && !Conflict(lib, rules, ip)
    ensures Apply(lib, rules, original, ip) == Apply(lib, others, original, ip)
  {
    forall r
      ensures r in rules <==> r in others
    {
      assert r in multiset(rules) <==> r in multiset(others);
    }
    if rule :| rule in rules && Broken(lib, rule, ip) {
      BrokenRuleNeverKeeps(lib, rules, original, ip, rule);
      BrokenRuleNeverKeeps(lib, others, original, ip, rule);
      ApplyWithoutDenial(lib, rules, original, ip, original, false);
      ApplyWithoutDenial(lib, others, original, ip, original, false);
    } else {
      ApplyMeaning(lib, rules, original, ip);
      ApplyMeaning(lib, others, original, ip);
      var a, b := Apply(lib, rules, original, ip), Apply(lib, others, original, ip);
      if a.Kept? {
        if r :| r in rules && MatchesAuthor(r, original) {
          assert a.data.author == r.replacement == b.data.author;
        }
        assert a.data == b.data;
      }
    }
  }

  function MovedFirst(rules: seq<NativeRule>, i: nat): (moved: seq<NativeRule>)
    requires i < |rules|
    ensures multiset(moved) == multiset(rules)
  {
    assert rules == rules[..i] + [rules[i]] + rules[i + 1..];
    [rules[i]] + rules[..i] + rules[i + 1..]
  }

  /** With one it does: of two orders of the same rules one reports the bad rule, the other the denial. */
  lemma ConflictDependsOnOrder(lib: Library, rules: seq<NativeRule>, original: DanmakuData, ip: Option<string>)
    requires Conflict(lib, rules, ip)
    ensures exists a: seq<NativeRule>, b: seq<NativeRule> ::
              && multiset(a) == multiset(b) == multiset(rules)
              && Apply(lib, a, original, ip) == InvalidRule && Apply(lib, b, original, ip) == Denied
  {
    var i :| 0 <= i < |rules| && Broken(lib, rules[i], ip);
    var j :| 0 <= j < |rules| && MatchesIP(lib, rules[j], ip);
    assert Apply(lib, MovedFirst(rules, i), original, ip) == InvalidRule;
    assert Apply(lib, MovedFirst(rules, j), original, ip) == Denied;
  }

  /** A stored prefix that does not parse fails the submission under every order of the rules. */
  lemma BrokenRuleNeverKeeps(lib: Library, rules: seq<NativeRule>, original: DanmakuData, ip: Option<string>,
                             rule: NativeRule)
    requires rule in rules && Broken(lib, rule, ip)
    ensures !Apply(lib, rules, original, ip).Kept?
  {
    ApplyFails(lib, rules, original, ip, original, false);
  }

  ghost predicate Wellformed(rule: NativeRule) {
    rule.kind == Authors ==> rule.value != "" && rule.replacement != "" && rule.value != rule.replacement
  }

  /** The name a kept submission is stored under, exactly: mapping happens once, even when rules chain. */
  lemma StoredUnder(lib: Library, rules: seq<NativeRule>, original: DanmakuData, ip: Option<string>, name: string)
    requires Unique(rules) && forall r | r in rules :: Wellformed(r)
    requires Apply(lib, rules, original, ip).Kept?
    ensures EffectiveAuthor(Apply(lib, rules, original, ip).data) == name <==>
              || (exists r :: r in rules && MatchesAuthor(r, original) && r.replacement == name)
              || (EffectiveAuthor(original) == name && forall r | r in rules :: !MatchesAuthor(r, original))
    ensures Apply(lib, rules, original, ip).data.text == original.text
  {
    ApplyKeeps(lib, rules, original, ip, original, false);
    if r :| r in rules && MatchesAuthor(r, original) {
      assert EffectiveAuthor(Apply(lib, rules, original, ip).data) == r.replacement;
    }
  }

  // ----- the program -----

  lemma ContainsMeaning(text: string, part: string)
    ensures Contains(text, part) <==> exists before: string, after: string :: text == before + part + after
  {
    if Contains(text, part) {
      var i: nat :| i <= |text| && OccursAt(text, part, i);
      assert text == text[..i] + part + text[i + |part|..];
    }
    if before: string, after: string :| text == before + part + after {
      assert OccursAt(text, part, |before|);
    }
  }

  /** The first address rule that stops the submission, by matching or by not parsing. */
  ghost predicate FirstStop(lib: Library, rules: seq<NativeRule>, ip: Option<string>, i: nat)
    requires i < |rules|
  {
    && rules[i].kind == IPs && lib.test(rules[i].value, ip) != Outside
    && forall j | 0 <= j < i && rules[j].kind == IPs :: lib.test(rules[j].value, ip) == Outside
  }

  lemma {:induction false} StopsAtFirst(lib: Library, rules: seq<NativeRule>, original: DanmakuData, ip: Option<string>,
                                        data: DanmakuData, deleted: bool) returns (i: nat)
    requires !ApplyFrom(lib, rules, original, ip, data, deleted).Kept?
    ensures i < |rules| && FirstStop(lib, rules, ip, i)
    ensures ApplyFrom(lib, rules, original, ip, data, deleted)
         == if lib.test(rules[i].value, ip) == Inside then Denied else InvalidRule
  {
    var rule := rules[0];
    if rule.kind == IPs && lib.test(rule.value, ip) != Outside {
      i := 0;
    } else {
      var next := if MatchesAuthor(rule, original) then data.(author := rule.replacement) else data;
      hide MatchesAuthor, Contains;
      var rest := StopsAtFirst(lib, rules[1..], original, ip, next, deleted || MatchesKeyword(lib, rule, original));
      i := rest + 1;
    }
  }

  lemma ApplySpelled(lib: Library, rules: seq<NativeRule>, original: DanmakuData, ip: Option<string>)
    ensures var outcome := Apply(lib, rules, original, ip);
            && (outcome.Kept? <==> forall r | r in rules && r.kind == IPs :: lib.test(r.value, ip) == Outside)
            && (!outcome.Kept? ==>
                  exists i | 0 <= i < |rules| :: FirstStop(lib, rules, ip, i)
                    && outcome == if lib.test(rules[i].value, ip) == Inside then Denied else InvalidRule)
            && (outcome.Kept? ==> outcome.data.(author := original.author) == original)
            && (outcome.Kept? ==>
                  (outcome.deleted <==>
                   exists r, before: string, after: string :: r in rules && r.kind == Keywords
                     && lib.lower(PointerValue(original.text)) == before + r.value + after))
  {
    ApplyFails(lib, rules, original, ip, original, false);
    if Apply(lib, rules, original, ip).Kept? {
      ApplyKeeps(lib, rules, original, ip, original, false);
      forall r
        ensures MatchesKeyword(lib, r, original) <==>
                  r.kind == Keywords && exists before: string, after: string ::
                    lib.lower(PointerValue(original.text)) == before + r.value + after
      {
        ContainsMeaning(lib.lower(PointerValue(original.text)), r.value);
      }
    } else {
      var i := StopsAtFirst(lib, rules, original, ip, original, false);
    }
  }

  method ApplyNativeRules(lib: Library, original: DanmakuData, ip: Option<string>, rules: seq<NativeRule>)
    returns (outcome: Outcome)
    ensures outcome == Apply(lib, rules, original, ip)
    ensures outcome.Kept? <==> forall r | r in rules && r.kind == IPs :: lib.test(r.value, ip) == Outside
    ensures !outcome.Kept? ==>
              exists i | 0 <= i < |rules| :: FirstStop(lib, rules, ip, i)
                && outcome == if lib.test(rules[i].value, ip) == Inside then Denied else InvalidRule
    ensures outcome.Kept? ==> outcome.data.(author := original.author) == original
    ensures outcome.Kept? ==>
              (outcome.deleted <==>
               exists r, before: string, after: string :: r in rules && r.kind == Keywords
                 && lib.lower(if original.text.Some? then original.text.value else "") == before + r.value + after)
    ensures outcome.Kept? && Unique(rules) ==>
              forall r | r in rules && r.kind == Authors &&
                         r.value == if original.author == "" then FormatInt(original.authorID) else original.author ::
                outcome.data.author == r.replacement
    ensures outcome.Kept? && (forall r | r in rules && r.kind == Authors ::
                r.value != (if original.author == "" then FormatInt(original.authorID) else original.author))
            ==> outcome.data == original
  {
    ApplySpelled(lib, rules, original, ip);
    if Apply(lib, rules, original, ip).Kept? {
      ApplyKeeps(lib, rules, original, ip, original, false);
    }
    outcome := ApplyInOrder(lib, original, ip, rules);
  }

  /** The loop over the rules, with its two early returns. */
  method ApplyInOrder(lib: Library, original: DanmakuData, ip: Option<string>, rules: seq<NativeRule>)
    returns (outcome: Outcome)
    ensures outcome == Apply(lib, rules, original, ip)
  {
    var author := original.author;
    if author == "" {
      author := FormatInt(original.authorID);
    }
    var text := "";
    if original.text.Some? {
      text := original.text.value;
    }
    text := lib.lower(text);
    assert text == lib.lower(PointerValue(original.text));
    var data, deleted := original, false;
    for n := 0 to |rules|
      invariant Apply(lib, rules, original, ip) == ApplyFrom(lib, rules[n..], original, ip, data, deleted)
    {
      var rule := rules[n];
      match rule.kind {
        case IPs =>
          var test := lib.test(rule.value, ip);
          if test == Unparsable {
            return InvalidRule;
          }
          if test == Inside {
            return Denied;
          }
        case Keywords =>
          if Contains(text, rule.value) {
            deleted := true;
          }
        case Authors =>
          if author == rule.value {
            data := data.(author := rule.replacement);
          }
      }
    }
    return Kept(data, deleted);
  }
}
