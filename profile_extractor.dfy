/**
 * The fact extractor of frontend/js/userProfileExtractor.js. Each regular expression of the
 * extractor is an abstract rule: applied to the message it either fails or yields its match
 * (capture group 1, `match.index`, `match[0].length`). Everything around the rules is concrete:
 * first valid rule wins per category, a rejected name moves on to the next name rule, the
 * free-form memory note is a fallback, the contextual note is independent, confidences are fixed
 * bases plus a capped bonus, and names and birthdays are normalised.
 * Confidences are integer hundredths (90 stands for 0.9).
 */
module ProfileExtractor {
  import opened Wrappers
  import opened Strings

  /** The `type` strings 'name', 'birthday', 'preference_like', 'preference_dislike', 'memory'. */
  datatype FactType = Name | Birthday | Like | Dislike | Memory

  /**
   * A successful match: capture group 1 (the empty string when the group did not take part,
   * which JavaScript treats as falsy just like an empty capture), its index and its length.
   */
  datatype Hit = Hit(group: string, index: nat, length: nat)

  /** One regular expression of the extractor, as `message.match(pattern)`. */
  type Rule = string -> Option<Hit>

  /** The extractor's pattern tables, each list in the order the source declares it. */
  datatype RuleSet = RuleSet(
    name: seq<Rule>,
    birthday: seq<Rule>,
    likes: seq<Rule>,
    dislikes: seq<Rule>,
    memory: seq<Rule>,
    importance: Rule)

  /** Category and explicit-memory candidates carry `position`/`length`; the contextual note carries `metadata.contextual`. */
  datatype Origin = Span(position: nat, length: nat) | Contextual

  datatype Candidate = Candidate(kind: FactType, value: string, confidence: nat, explicit: bool, origin: Origin)

  const NameBlacklist: seq<string> := [
    "教えてもらってない", "わからない", "しらない", "知らない",
    "ない", "まだ", "これから", "あとで", "後で", "今度",
    "忘れた", "思い出せない", "秘密", "ひみつ", "言えない",
    "だめ", "ダメ", "いけない", "いやだ", "やだ", "いや",
    "うーん", "えーと", "そうですね", "はい", "いいえ"
  ]

  /** The character class of the "special characters" filter. */
  const SpecialChars: string := "!@#$%^&*()_+=[]{}|;:,.<>?"

  const Honorifics: seq<string> := ["さん", "くん", "ちゃん", "様", "氏"]

  const MemoryNoteConfidence: nat := 80
  const ContextualNoteConfidence: nat := 60

  predicate IsAsciiDigit(c: char)
  {
    '0' <= c <= '9'
  }

  /** `/^\d+$/.test(s)`. */
  predicate AllDigits(s: string)
  {
    s != [] && forall i :: 0 <= i < |s| ==> IsAsciiDigit(s[i])
  }

  /** `/[!@#$%^&*()_+=\[\]{}|;:,.<>?]/.test(s)`. */
  predicate HasSpecialChar(s: string)
  {
    exists i :: 0 <= i < |s| && s[i] in SpecialChars
  }

  /** `blacklist.some(b => name.includes(b))`, scanned in list order. */
  predicate HitsBlacklist(name: string, list: seq<string>)
  {
    HitsBlacklistFrom(name, list, 0)
  }

  predicate HitsBlacklistFrom(name: string, list: seq<string>, i: nat)
    decreases |list| - i
  {
    i < |list| && (Contains(name, list[i]) || HitsBlacklistFrom(name, list, i + 1))
  }

  lemma {:induction false} HitsBlacklistFromIff(name: string, list: seq<string>, i: nat)
    ensures HitsBlacklistFrom(name, list, i) <==> exists k :: i <= k < |list| && Contains(name, list[k])
    decreases |list| - i
  {
    if i < |list| {
      HitsBlacklistFromIff(name, list, i + 1);
    }
  }

  /** The scan finds a word exactly when some blacklist word occurs in the name. */
  lemma HitsBlacklistIff(name: string, list: seq<string>)
    ensures HitsBlacklist(name, list) <==> ContainsAny(name, list)
  {
    HitsBlacklistFromIff(name, list, 0);
    if ContainsAny(name, list) {
      var w :| w in list && Contains(name, w);
      var k :| 0 <= k < |list| && list[k] == w;
    }
  }

  /**
   * isInvalidName: the blacklist, the 20-unit maximum, the 2-unit minimum, the all-digits
   * test and the special-character test, in that order. A name is accepted exactly when it
   * passes all five.
   */
  function IsInvalidName(name: string): bool
  {
    if HitsBlacklist(name, NameBlacklist) then true
    else if Utf16Length(name) > 20 then true
    else if Utf16Length(name) < 2 then true
    else if AllDigits(name) then true
    else if HasSpecialChar(name) then true
    else false
  }

  /** The five name filters, stated positively. */
  predicate AcceptedName(raw: string)
  {
    && 2 <= Utf16Length(raw) <= 20
    && !ContainsAny(raw, NameBlacklist)
    && !AllDigits(raw)
    && (forall k :: 0 <= k < |raw| ==> raw[k] !in SpecialChars)
  }

  /** A name is accepted exactly when it passes all five filters. */
  lemma IsInvalidNameMeaning(name: string)
    ensures !IsInvalidName(name) <==> AcceptedName(name)
  {
    HitsBlacklistIff(name, NameBlacklist);
  }

  /** calculateConfidence: the base for the category plus 0.05 under a memory request, at most 1.0. */
  function BaseConfidence(kind: FactType): nat
  {
    match kind
    case Name => 90
    case Birthday => 85
    case Like => 80
    case Dislike => 80
    case Memory => 80
  }

  function Confidence(kind: FactType, hasMemoryRequest: bool): (c: nat)
    ensures c <= 100
    ensures hasMemoryRequest ==> c == BaseConfidence(kind) + 5
    ensures !hasMemoryRequest ==> c == BaseConfidence(kind)
  {
    var base := BaseConfidence(kind);
    if hasMemoryRequest then (if base + 5 < 100 then base + 5 else 100) else base
  }

  /**
   * normalizeValue for names: a name ending in an honorific (`/(?:さん|くん|ちゃん|様|氏)$/`)
   * loses exactly one of them; any other name is unchanged.
   */
  function StripHonorific(value: string): (r: string)
    ensures (exists h :: h in Honorifics && IsSuffix(h, value)) ==>
              |r| < |value| && exists h :: h in Honorifics && IsSuffix(h, value) && value == r + h
    ensures (forall h :: h in Honorifics ==> !IsSuffix(h, value)) ==> r == value
  {
    StripFirstSuffix(value, Honorifics)
  }

  /** Removes the first of `suffixes` that ends `value`, if any. */
  function StripFirstSuffix(value: string, suffixes: seq<string>): (r: string)
    ensures (exists h :: h in suffixes && IsSuffix(h, value)) ==>
              exists h :: h in suffixes && IsSuffix(h, value) && value == r + h
    ensures (forall h :: h in suffixes ==> !IsSuffix(h, value)) ==> r == value
  {
    if suffixes == [] then value
    else if IsSuffix(suffixes[0], value) then
      assert value == value[..|value| - |suffixes[0]|] + suffixes[0];
      value[..|value| - |suffixes[0]|]
    else
      assert forall h :: h in suffixes && h != suffixes[0] ==> h in suffixes[1..];
      assert forall h :: h in suffixes[1..] ==> h in suffixes;
      StripFirstSuffix(value, suffixes[1..])
  }

  /** Only one honorific is removed: a doubled one keeps its first copy. */
  lemma StripHonorificOnce()
    ensures StripHonorific("太郎さんさん") == "太郎さん"
    ensures StripHonorific("花子ちゃん") == "花子"
  {
    assert IsSuffix("さん", "太郎さんさん");
    assert IsSuffix("ちゃん", "花子ちゃん");
    assert !IsSuffix("さん", "花子ちゃん") && !IsSuffix("くん", "花子ちゃん");
  }

  predicate IsDateSeparator(c: char)
  {
    c == '月' || c == '/'
  }

  /**
   * The match of `/(\d{1,2})[月\/](\d{1,2})日?/` that starts at index 0 of `s`, as its two
   * digit groups. Both groups are greedy; backing the first group off to one digit cannot
   * help when a second digit follows, since a digit is not a separator.
   */
  function DateAt(s: string): (r: Option<(string, string)>)
    ensures r.Some? ==> 1 <= |r.value.0| <= 2 && 1 <= |r.value.1| <= 2
  {
    if |s| >= 1 && IsAsciiDigit(s[0]) then
      var n1 := if |s| >= 2 && IsAsciiDigit(s[1]) then 2 else 1;
      if |s| > n1 + 1 && IsDateSeparator(s[n1]) && IsAsciiDigit(s[n1 + 1]) then
        var n2 := if |s| > n1 + 2 && IsAsciiDigit(s[n1 + 2]) then 2 else 1;
        Some((s[..n1], s[n1 + 1..n1 + 1 + n2]))
      else None
    else None
  }

  /** The leftmost match of the date pattern, searched from index 0. */
  function FindDate(s: string): (r: Option<(string, string)>)
    ensures r.Some? ==> 1 <= |r.value.0| <= 2 && 1 <= |r.value.1| <= 2
  {
    if s == [] then None
    else match DateAt(s)
      case Some(m) => Some(m)
      case None => FindDate(s[1..])
  }

  /** normalizeDateFormat: the first date-shaped token rewritten to `M月D日`, otherwise the input. */
  function NormalizeDate(s: string): string
  {
    match FindDate(s)
    case Some((m, d)) => m + "月" + d + "日"
    case None => s
  }

  /** A date token's two groups are ASCII digits. */
  lemma DateAtDigits(s: string)
    requires DateAt(s).Some?
    ensures var (m, d) := DateAt(s).value;
            (forall i :: 0 <= i < |m| ==> IsAsciiDigit(m[i])) && (forall i :: 0 <= i < |d| ==> IsAsciiDigit(d[i]))
  {
  }

  /** The date found starts at `k`, the first position where a date token starts. */
  lemma {:induction false} FindDateAt(s: string) returns (k: nat)
    requires FindDate(s).Some?
    ensures k < |s| && DateAt(s[k..]) == FindDate(s)
    ensures forall j :: 0 <= j < k ==> DateAt(s[j..]).None?
  {
    if DateAt(s).Some? {
      k := 0;
      assert s[0..] == s;
    } else {
      var k' := FindDateAt(s[1..]);
      k := k' + 1;
      assert s[1..][k'..] == s[k..];
      forall j | 0 <= j < k ensures DateAt(s[j..]).None? {
        if j > 0 { assert s[1..][j - 1..] == s[j..]; }
      }
    }
  }

  /** The digit groups are copied from the input as written (a leading zero stays). */
  lemma FindDateFromInput(s: string)
    requires FindDate(s).Some?
    ensures exists k :: 0 <= k < |s| && DateAt(s[k..]) == FindDate(s)
                        && (forall j :: 0 <= j < k ==> DateAt(s[j..]).None?)
    ensures var (m, d) := FindDate(s).value;
            (forall i :: 0 <= i < |m| ==> IsAsciiDigit(m[i])) && (forall i :: 0 <= i < |d| ==> IsAsciiDigit(d[i]))
  {
    var k := FindDateAt(s);
    DateAtDigits(s[k..]);
  }

  /** A string with no date token is returned unchanged. */
  lemma NormalizeDateNoMatch(s: string)
    requires forall k :: 0 <= k < |s| ==> DateAt(s[k..]).None?
    ensures NormalizeDate(s) == s
  {
    if FindDate(s).Some? {
      FindDateFromInput(s);
    }
  }

  /** Normalising a birthday twice changes nothing more than normalising it once. */
  lemma NormalizeDateIdempotent(s: string)
    ensures NormalizeDate(NormalizeDate(s)) == NormalizeDate(s)
  {
    if FindDate(s).Some? {
      FindDateFromInput(s);
      var (m, d) := FindDate(s).value;
      var r := m + "月" + d + "日";
      assert r[|m|] == '月';
      assert r[|m| + 1 + |d|] == '日';
      assert r[..|m|] == m;
      assert r[|m| + 1..|m| + 1 + |d|] == d;
      assert DateAt(r) == Some((m, d));
    }
  }

  /** normalizeValue. */
  function Normalize(kind: FactType, value: string): string
  {
    match kind
    case Birthday => NormalizeDate(value)
    case Name => StripHonorific(value)
    case _ => value
  }

  /** The match `m` of a rule of category `kind` is taken (a name must pass isInvalidName on its trimmed capture). */
  predicate Usable(kind: FactType, m: Option<Hit>)
  {
    m.Some? && !(kind == Name && IsInvalidName(Trim(m.value.group)))
  }

  /** The candidate extractPattern pushes for an accepted match. */
  function CandidateOf(kind: FactType, h: Hit, hasMemoryRequest: bool): Candidate
  {
    Candidate(kind, Normalize(kind, Trim(h.group)), Confidence(kind, hasMemoryRequest), hasMemoryRequest, Span(h.index, h.length))
  }

  /** The index of the first rule, at or after `from`, whose match is usable. */
  function FirstUsable(message: string, kind: FactType, rules: seq<Rule>, from: nat): (r: Option<nat>)
    ensures r.Some? ==> from <= r.value < |rules| && rules[r.value](message).Some?
    decreases |rules| - from
  {
    if from >= |rules| then None
    else if Usable(kind, rules[from](message)) then Some(from)
    else FirstUsable(message, kind, rules, from + 1)
  }

  /** extractPattern, as a value: the candidate of the first rule whose match is usable. */
  function FirstValid(message: string, kind: FactType, rules: seq<Rule>, hasMemoryRequest: bool): (r: Option<Candidate>)
    ensures r.Some? ==> && r.value.kind == kind
                        && r.value.explicit == hasMemoryRequest
                        && r.value.confidence == Confidence(kind, hasMemoryRequest)
                        && r.value.origin.Span?
  {
    FirstValidFrom(message, kind, rules, 0, hasMemoryRequest)
  }

  /** The candidate of the first usable rule at or after `from`. */
  function FirstValidFrom(message: string, kind: FactType, rules: seq<Rule>, from: nat, hasMemoryRequest: bool): (r: Option<Candidate>)
    ensures r.Some? ==> && r.value.kind == kind
                        && r.value.explicit == hasMemoryRequest
                        && r.value.confidence == Confidence(kind, hasMemoryRequest)
                        && r.value.origin.Span?
    decreases |rules| - from
  {
    if from >= |rules| then None
    else if Usable(kind, rules[from](message)) then Some(CandidateOf(kind, rules[from](message).value, hasMemoryRequest))
    else FirstValidFrom(message, kind, rules, from + 1, hasMemoryRequest)
  }

  /** The candidate search and the index search stop at the same rule. */
  lemma {:induction false} FirstValidFromUsable(message: string, kind: FactType, rules: seq<Rule>, from: nat, hasMemoryRequest: bool)
    ensures FirstValidFrom(message, kind, rules, from, hasMemoryRequest).None? <==> FirstUsable(message, kind, rules, from).None?
    ensures FirstUsable(message, kind, rules, from).Some? ==>
              var i := FirstUsable(message, kind, rules, from).value;
              FirstValidFrom(message, kind, rules, from, hasMemoryRequest) == Some(CandidateOf(kind, rules[i](message).value, hasMemoryRequest))
    decreases |rules| - from
  {
    if from < |rules| && !Usable(kind, rules[from](message)) {
      FirstValidFromUsable(message, kind, rules, from + 1, hasMemoryRequest);
    }
  }

  /** Rule `i` is the first rule of the list whose match is usable. */
  predicate FirstUsableAt(message: string, kind: FactType, rules: seq<Rule>, i: int)
  {
    && 0 <= i < |rules|
    && Usable(kind, rules[i](message))
    && forall j :: 0 <= j < i ==> !Usable(kind, rules[j](message))
  }

  /** No rule with an index in [lo, hi) has a usable match. */
  predicate NoneUsable(message: string, kind: FactType, rules: seq<Rule>, lo: nat, hi: nat)
  {
    forall j :: lo <= j < hi && j < |rules| ==> !Usable(kind, rules[j](message))
  }

  /** Peels the lowest rule off NoneUsable. */
  lemma NoneUsableStep(message: string, kind: FactType, rules: seq<Rule>, lo: nat, hi: nat)
    requires lo < hi && lo < |rules|
    ensures NoneUsable(message, kind, rules, lo, hi) <==>
              !Usable(kind, rules[lo](message)) && NoneUsable(message, kind, rules, lo + 1, hi)
  {
    if !Usable(kind, rules[lo](message)) && NoneUsable(message, kind, rules, lo + 1, hi) {
      forall j | lo <= j < hi && j < |rules|
        ensures !Usable(kind, rules[j](message))
      {
        if j > lo {
          assert lo + 1 <= j;
        }
      }
    }
  }

  /** The search finds nothing exactly when no rule from `from` on is usable. */
  lemma {:induction false} FirstUsableNone(message: string, kind: FactType, rules: seq<Rule>, from: nat)
    ensures FirstUsable(message, kind, rules, from).None? <==> NoneUsable(message, kind, rules, from, |rules|)
    decreases |rules| - from
  {
    if from < |rules| {
      NoneUsableStep(message, kind, rules, from, |rules|);
      if !Usable(kind, rules[from](message)) {
        FirstUsableNone(message, kind, rules, from + 1);
      }
    }
  }

  /** A found rule is usable and every rule between `from` and it is not. */
  lemma {:induction false} FirstUsableSome(message: string, kind: FactType, rules: seq<Rule>, from: nat)
    requires FirstUsable(message, kind, rules, from).Some?
    ensures var i := FirstUsable(message, kind, rules, from).value;
            Usable(kind, rules[i](message)) && NoneUsable(message, kind, rules, from, i)
    decreases |rules| - from
  {
    if !Usable(kind, rules[from](message)) {
      var i := FirstUsable(message, kind, rules, from).value;
      FirstUsableSome(message, kind, rules, from + 1);
      NoneUsableStep(message, kind, rules, from, i);
    }
  }

  /** First valid wins: the candidate comes from the first usable rule, and there is none exactly when no rule is usable. */
  lemma FirstValidIsFirstUsable(message: string, kind: FactType, rules: seq<Rule>, hasMemoryRequest: bool)
    ensures FirstValid(message, kind, rules, hasMemoryRequest).None? <==>
              forall j :: 0 <= j < |rules| ==> !Usable(kind, rules[j](message))
    ensures FirstValid(message, kind, rules, hasMemoryRequest).Some? ==>
              exists i :: FirstUsableAt(message, kind, rules, i)
                && FirstValid(message, kind, rules, hasMemoryRequest) == Some(CandidateOf(kind, rules[i](message).value, hasMemoryRequest))
  {
    FirstValidFromUsable(message, kind, rules, 0, hasMemoryRequest);
    FirstUsableNone(message, kind, rules, 0);
    if FirstUsable(message, kind, rules, 0).Some? {
      FirstUsableSome(message, kind, rules, 0);
      var i := FirstUsable(message, kind, rules, 0).value;
      assert FirstUsableAt(message, kind, rules, i);
    }
  }

  /** Every accepted name passed the five filters on its trimmed capture, before honorific stripping. */
  lemma AcceptedNamePassesFilters(message: string, rules: seq<Rule>, hasMemoryRequest: bool)
    requires FirstValid(message, Name, rules, hasMemoryRequest).Some?
    ensures exists i :: FirstUsableAt(message, Name, rules, i) && AcceptedName(Trim(rules[i](message).value.group))
                        && FirstValid(message, Name, rules, hasMemoryRequest).value.value == StripHonorific(Trim(rules[i](message).value.group))
  {
    FirstValidFromUsable(message, Name, rules, 0, hasMemoryRequest);
    FirstUsableSome(message, Name, rules, 0);
    var i := FirstUsable(message, Name, rules, 0).value;
    assert FirstUsableAt(message, Name, rules, i);
    IsInvalidNameMeaning(Trim(rules[i](message).value.group));
  }

  /** extractPattern: tries the rules in order, skips a rejected name, keeps the first valid match. */
  method ExtractPattern(message: string, kind: FactType, rules: seq<Rule>, results: seq<Candidate>, hasMemoryRequest: bool)
    returns (results': seq<Candidate>)
    ensures results' == results + ToSeq(FirstValid(message, kind, rules, hasMemoryRequest))
  {
    results' := results;
    var i := 0;
    while i < |rules|
      invariant 0 <= i <= |rules|
      invariant results' == results
      invariant FirstValid(message, kind, rules, hasMemoryRequest) == FirstValidFrom(message, kind, rules, i, hasMemoryRequest)
    {
      var m := rules[i](message);
      if m.Some? {
        var extracted := Trim(m.value.group);
        if kind == Name && IsInvalidName(extracted) {
          i := i + 1;
          continue;
        }
        var confidence := Confidence(kind, hasMemoryRequest);
        results' := results' + [Candidate(kind, Normalize(kind, extracted), confidence, hasMemoryRequest, Span(m.value.index, m.value.length))];
        return;
      }
      i := i + 1;
    }
  }

  /** checkMemoryRequest: `memory.some(p => p.test(message))`. */
  predicate HasMemoryRequest(memory: seq<Rule>, message: string)
  {
    exists i :: 0 <= i < |memory| && memory[i](message).Some?
  }

  /** The explicit memory note of the first memory rule that matches. */
  function MemoryFallback(memory: seq<Rule>, message: string): (r: Option<Candidate>)
    ensures r.Some? <==> HasMemoryRequest(memory, message)
    ensures r.Some? ==> r.value.kind == Memory && r.value.explicit && r.value.confidence == MemoryNoteConfidence && r.value.origin.Span?
  {
    if memory == [] then None
    else match memory[0](message)
      case Some(h) =>
        assert memory[0](message).Some?;
        Some(Candidate(Memory, if h.group != [] then Trim(h.group) else message, MemoryNoteConfidence, true, Span(h.index, h.length)))
      case None =>
        assert forall i :: 1 <= i < |memory| ==> memory[i] == memory[1..][i - 1];
        MemoryFallback(memory[1..], message)
  }

  /**
   * The note comes from the first memory rule that matches: its value is that match's trimmed
   * group 1, or the whole message when the group is empty, and it records that match's position.
   */
  lemma {:induction false} MemoryFallbackFirst(memory: seq<Rule>, message: string) returns (i: nat)
    requires MemoryFallback(memory, message).Some?
    ensures i < |memory| && memory[i](message).Some?
    ensures forall j :: 0 <= j < i ==> memory[j](message).None?
    ensures var h := memory[i](message).value;
            && MemoryFallback(memory, message).value.value == (if h.group != [] then Trim(h.group) else message)
            && MemoryFallback(memory, message).value.origin == Span(h.index, h.length)
  {
    if memory[0](message).Some? {
      i := 0;
    } else {
      var k := MemoryFallbackFirst(memory[1..], message);
      i := k + 1;
      assert memory[i] == memory[1..][k];
      forall j | 0 <= j < i
        ensures memory[j](message).None?
      {
        if j > 0 {
          assert memory[j] == memory[1..][j - 1];
        }
      }
    }
  }

  /** The contextual-importance note, emitted whenever the importance pattern matches. */
  function ContextualNote(importance: Rule, message: string): (r: Option<Candidate>)
    ensures r.Some? <==> importance(message).Some?
    ensures r.Some? ==> r.value.kind == Memory && !r.value.explicit && r.value.confidence == ContextualNoteConfidence && r.value.origin.Contextual?
  {
    match importance(message)
    case Some(h) => Some(Candidate(Memory, if h.group != [] then h.group else message, ContextualNoteConfidence, false, Contextual))
    case None => None
  }

  /** The four category candidates, in the order name, birthday, like, dislike. */
  function CategoryCandidates(rs: RuleSet, message: string, hasMemoryRequest: bool): seq<Candidate>
  {
    ToSeq(FirstValid(message, Name, rs.name, hasMemoryRequest))
    + ToSeq(FirstValid(message, Birthday, rs.birthday, hasMemoryRequest))
    + ToSeq(FirstValid(message, Like, rs.likes, hasMemoryRequest))
    + ToSeq(FirstValid(message, Dislike, rs.dislikes, hasMemoryRequest))
  }

  /** extractMultipleInfo, as a value. */
  function Extract(rs: RuleSet, message: string): seq<Candidate>
  {
    var hasMemoryRequest := HasMemoryRequest(rs.memory, message);
    var categories := CategoryCandidates(rs, message, hasMemoryRequest);
    var fallback := if hasMemoryRequest && categories == [] then ToSeq(MemoryFallback(rs.memory, message)) else [];
    categories + fallback + ToSeq(ContextualNote(rs.importance, message))
  }

  /** extractMultipleInfo. */
  method ExtractMultipleInfo(rs: RuleSet, message: string) returns (results: seq<Candidate>)
    ensures results == Extract(rs, message)
  {
    var hasMemoryRequest := HasMemoryRequest(rs.memory, message);
    results := [];
    results := ExtractPattern(message, Name, rs.name, results, hasMemoryRequest);
    results := ExtractPattern(message, Birthday, rs.birthday, results, hasMemoryRequest);
    results := ExtractPattern(message, Like, rs.likes, results, hasMemoryRequest);
    results := ExtractPattern(message, Dislike, rs.dislikes, results, hasMemoryRequest);
    assert results == CategoryCandidates(rs, message, hasMemoryRequest);

    if hasMemoryRequest && |results| == 0 {
      results := FallbackLoop(rs.memory, message);
    }

    assert results == CategoryCandidates(rs, message, hasMemoryRequest) + FallbackPart(rs, message);
    var m := rs.importance(message);
    if m.Some? {
      results := results + [Candidate(Memory, if m.value.group != [] then m.value.group else message, ContextualNoteConfidence, false, Contextual)];
    }
  }

  /** The fallback loop of extractMultipleInfo: the note of the first memory rule that matches, then `break`. */
  method FallbackLoop(memory: seq<Rule>, message: string) returns (results: seq<Candidate>)
    ensures results == ToSeq(MemoryFallback(memory, message))
  {
    results := [];
    var i := 0;
    while i < |memory|
      invariant 0 <= i <= |memory|
      invariant results == []
      invariant MemoryFallback(memory, message) == MemoryFallback(memory[i..], message)
    {
      assert memory[i..][1..] == memory[i + 1..];
      var m := memory[i](message);
      if m.Some? {
        var value := if m.value.group != [] then Trim(m.value.group) else message;
        results := [Candidate(Memory, value, MemoryNoteConfidence, true, Span(m.value.index, m.value.length))];
        return;
      }
      i := i + 1;
    }
  }

  /** The place of a candidate in the output: name, birthday, like, dislike, explicit note, contextual note. */
  function Rank(c: Candidate): nat
  {
    match c.kind
    case Name => 0
    case Birthday => 1
    case Like => 2
    case Dislike => 3
    case Memory => if c.origin.Contextual? then 5 else 4
  }

  /** Ranks strictly increase along the list. */
  predicate Ascending(r: seq<Candidate>)
  {
    forall i, j :: 0 <= i < j < |r| ==> Rank(r[i]) < Rank(r[j])
  }

  /** Every rank in the list is below `k`. */
  predicate RanksBelow(r: seq<Candidate>, k: nat)
  {
    forall c :: c in r ==> Rank(c) < k
  }

  /** Appending at most one candidate of rank `k` to an ascending list of ranks below `k`. */
  lemma AscendingExtend(a: seq<Candidate>, b: seq<Candidate>, k: nat)
    requires Ascending(a) && RanksBelow(a, k)
    requires |b| <= 1 && forall c :: c in b ==> Rank(c) == k
    ensures Ascending(a + b) && RanksBelow(a + b, k + 1)
  {
    if |b| == 1 {
      forall i, j | 0 <= i < j < |a + b| ensures Rank((a + b)[i]) < Rank((a + b)[j]) {
        if j == |a| {
          assert (a + b)[i] in a && (a + b)[j] == b[0];
        } else {
          assert (a + b)[i] == a[i] && (a + b)[j] == a[j];
        }
      }
    } else {
      assert a + b == a;
    }
  }

  /** The slot of one category: at most one candidate, of that category's rank. */
  lemma SlotRank(message: string, kind: FactType, rules: seq<Rule>, h: bool)
    requires kind != Memory
    ensures var slot := ToSeq(FirstValid(message, kind, rules, h));
            |slot| <= 1 && forall c :: c in slot ==> Rank(c) == Rank(Candidate(kind, [], 0, h, Span(0, 0)))
  {
  }

  /** The category candidates come in the order name, birthday, like, dislike, all ranked below 4. */
  lemma CategoryOrder(rs: RuleSet, message: string, h: bool)
    ensures Ascending(CategoryCandidates(rs, message, h)) && RanksBelow(CategoryCandidates(rs, message, h), 4)
  {
    var n := ToSeq(FirstValid(message, Name, rs.name, h));
    var b := ToSeq(FirstValid(message, Birthday, rs.birthday, h));
    var l := ToSeq(FirstValid(message, Like, rs.likes, h));
    var d := ToSeq(FirstValid(message, Dislike, rs.dislikes, h));
    SlotRank(message, Name, rs.name, h);
    SlotRank(message, Birthday, rs.birthday, h);
    SlotRank(message, Like, rs.likes, h);
    SlotRank(message, Dislike, rs.dislikes, h);
    FourSlots(n, b, l, d);
  }

  /** Four slots of at most one candidate each, of ranks 0 to 3 in turn, form an ascending list. */
  lemma FourSlots(n: seq<Candidate>, b: seq<Candidate>, l: seq<Candidate>, d: seq<Candidate>)
    requires |n| <= 1 && |b| <= 1 && |l| <= 1 && |d| <= 1
    requires (forall c :: c in n ==> Rank(c) == 0) && (forall c :: c in b ==> Rank(c) == 1)
    requires (forall c :: c in l ==> Rank(c) == 2) && (forall c :: c in d ==> Rank(c) == 3)
    ensures Ascending(n + b + l + d) && RanksBelow(n + b + l + d, 4)
  {
    AscendingExtend([], n, 0);
    assert [] + n == n;
    AscendingExtend(n, b, 1);
    AscendingExtend(n + b, l, 2);
    AscendingExtend(n + b + l, d, 3);
  }

  /** Candidates come out in category order with at most one of each kind of slot. */
  lemma ExtractOrder(rs: RuleSet, message: string)
    ensures Ascending(Extract(rs, message))
  {
    var h := HasMemoryRequest(rs.memory, message);
    ExtractParts(rs, message);
    var cats := CategoryCandidates(rs, message, h);
    var fb := FallbackPart(rs, message);
    CategoryOrder(rs, message, h);
    AscendingExtend(cats, fb, 4);
    AscendingExtend(cats + fb, ToSeq(ContextualNote(rs.importance, message)), 5);
  }

  /** The fallback part of Extract. */
  function FallbackPart(rs: RuleSet, message: string): seq<Candidate>
  {
    var hasMemoryRequest := HasMemoryRequest(rs.memory, message);
    if hasMemoryRequest && CategoryCandidates(rs, message, hasMemoryRequest) == [] then ToSeq(MemoryFallback(rs.memory, message)) else []
  }

  lemma ExtractParts(rs: RuleSet, message: string)
    ensures Extract(rs, message) == CategoryCandidates(rs, message, HasMemoryRequest(rs.memory, message))
                                    + FallbackPart(rs, message) + ToSeq(ContextualNote(rs.importance, message))
    ensures forall c :: c in CategoryCandidates(rs, message, HasMemoryRequest(rs.memory, message)) ==> c.kind != Memory && c.origin.Span?
    ensures forall c :: c in FallbackPart(rs, message) ==> c.kind == Memory && c.origin.Span? && c.explicit && c.confidence == MemoryNoteConfidence
    ensures forall c :: c in ToSeq(ContextualNote(rs.importance, message)) ==> c.kind == Memory && c.origin.Contextual?
  {
    var h := HasMemoryRequest(rs.memory, message);
    var n := ToSeq(FirstValid(message, Name, rs.name, h));
    var b := ToSeq(FirstValid(message, Birthday, rs.birthday, h));
    var l := ToSeq(FirstValid(message, Like, rs.likes, h));
    var d := ToSeq(FirstValid(message, Dislike, rs.dislikes, h));
    assert CategoryCandidates(rs, message, h) == n + b + l + d;
  }

  /** Every category candidate carries the request flag and its category's confidence. */
  lemma CategoryCandidatesFlags(rs: RuleSet, message: string, h: bool)
    ensures forall c :: c in CategoryCandidates(rs, message, h) ==>
              c.explicit == h && c.confidence == Confidence(c.kind, h) && c.origin.Span?
  {
    var n := ToSeq(FirstValid(message, Name, rs.name, h));
    var b := ToSeq(FirstValid(message, Birthday, rs.birthday, h));
    var l := ToSeq(FirstValid(message, Like, rs.likes, h));
    var d := ToSeq(FirstValid(message, Dislike, rs.dislikes, h));
    assert CategoryCandidates(rs, message, h) == n + b + l + d;
  }

  /** A category candidate is flagged explicit exactly when the message holds a memory request, and carries that category's confidence. */
  lemma ExtractCategoryFlags(rs: RuleSet, message: string)
    ensures var hasMemoryRequest := HasMemoryRequest(rs.memory, message);
            forall c :: c in Extract(rs, message) && c.kind != Memory ==>
              c.explicit == hasMemoryRequest && c.confidence == Confidence(c.kind, hasMemoryRequest) && c.origin.Span?
  {
    var h := HasMemoryRequest(rs.memory, message);
    ExtractParts(rs, message);
    CategoryCandidatesFlags(rs, message, h);
  }

  /** An explicit memory note is produced iff the message holds a memory request and no category matched validly; it is 0.8 and explicit. */
  lemma ExtractFallbackGate(rs: RuleSet, message: string)
    ensures (exists c :: c in Extract(rs, message) && c.kind == Memory && c.origin.Span?) <==>
              HasMemoryRequest(rs.memory, message) && CategoryCandidates(rs, message, false) == []
    ensures forall c :: c in Extract(rs, message) && c.kind == Memory && c.origin.Span? ==>
              c.explicit && c.confidence == MemoryNoteConfidence
  {
    var h := HasMemoryRequest(rs.memory, message);
    CategoryEmptyIndependentOfFlag(rs, message);
    ExtractParts(rs, message);
    var cats := CategoryCandidates(rs, message, h);
    var fb := FallbackPart(rs, message);
    var ctx := ToSeq(ContextualNote(rs.importance, message));
    assert Extract(rs, message) == cats + fb + ctx;
    forall c | c in Extract(rs, message) && c.kind == Memory && c.origin.Span?
      ensures c in fb
    {
      assert c !in cats && c !in ctx;
    }
    if h && cats == [] {
      assert fb[0] in Extract(rs, message);
    }
  }

  /** Whether a category matched does not depend on the memory-request flag. */
  lemma CategoryEmptyIndependentOfFlag(rs: RuleSet, message: string)
    ensures CategoryCandidates(rs, message, true) == [] <==> CategoryCandidates(rs, message, false) == []
  {
    FirstValidFromUsable(message, Name, rs.name, 0, true);
    FirstValidFromUsable(message, Name, rs.name, 0, false);
    FirstValidFromUsable(message, Birthday, rs.birthday, 0, true);
    FirstValidFromUsable(message, Birthday, rs.birthday, 0, false);
    FirstValidFromUsable(message, Like, rs.likes, 0, true);
    FirstValidFromUsable(message, Like, rs.likes, 0, false);
    FirstValidFromUsable(message, Dislike, rs.dislikes, 0, true);
    FirstValidFromUsable(message, Dislike, rs.dislikes, 0, false);
  }

  /** The contextual note is emitted iff the importance pattern matches, whether or not the fallback fired; it is 0.6, not explicit, and last. */
  lemma ExtractContextualNote(rs: RuleSet, message: string)
    ensures (exists c :: c in Extract(rs, message) && c.origin.Contextual?) <==> rs.importance(message).Some?
    ensures forall c :: c in Extract(rs, message) && c.origin.Contextual? ==>
              c.kind == Memory && !c.explicit && c.confidence == ContextualNoteConfidence
    ensures rs.importance(message).Some? ==>
              var r := Extract(rs, message); r[|r| - 1].origin.Contextual?
  {
    ExtractParts(rs, message);
    var h := HasMemoryRequest(rs.memory, message);
    var front := CategoryCandidates(rs, message, h) + FallbackPart(rs, message);
    var ctx := ToSeq(ContextualNote(rs.importance, message));
    assert Extract(rs, message) == front + ctx;
    assert forall c :: c in front ==> c.origin.Span?;
    if rs.importance(message).Some? {
      assert ctx[0] in Extract(rs, message);
    }
  }

  /** "太郎さん" passes every name filter. */
  lemma TaroIsValidName()
    ensures !IsInvalidName("太郎さん")
  {
    TaroNotBlacklisted();
    Utf16LengthBmp("太郎さん");
    TaroHasNoSpecialChar();
    PassesFilters("太郎さん");
  }

  lemma PassesFilters(name: string)
    requires !ContainsAny(name, NameBlacklist) && 2 <= Utf16Length(name) <= 20
    requires !HasSpecialChar(name) && !AllDigits(name)
    ensures !IsInvalidName(name)
  {
    HitsBlacklistIff(name, NameBlacklist);
  }

  lemma TaroNotBlacklisted()
    ensures !ContainsAny("太郎さん", NameBlacklist)
  {
    forall w | w in NameBlacklist ensures !Contains("太郎さん", w) {
      assert w != [] && w[0] !in "太郎さん";
      if Contains("太郎さん", w) { ContainsHead("太郎さん", w); }
    }
  }

  lemma TaroHasNoSpecialChar()
    ensures !HasSpecialChar("太郎さん") && !AllDigits("太郎さん")
  {
    var s := "太郎さん";
    assert s[0] == '太' && s[1] == '郎' && s[2] == 'さ' && s[3] == 'ん';
    assert !IsAsciiDigit(s[0]);
    assert forall c :: c in SpecialChars ==> c < '\U{0080}';
  }

  /** "わからない" ("I don't know") is on the blacklist. */
  lemma WakaranaiIsInvalidName()
    ensures IsInvalidName(Trim("わからない"))
  {
    WakaranaiTrimmed();
    WakaranaiBlacklisted();
  }

  lemma WakaranaiTrimmed()
    ensures Trim("わからない") == "わからない"
  {
    var s := "わからない";
    assert !IsJsSpace(s[0]);
    assert TrimStart(s) == s;
    assert !IsJsSpace(s[4]);
    assert TrimEnd(s) == s;
  }

  lemma WakaranaiBlacklisted()
    ensures HitsBlacklist("わからない", NameBlacklist)
  {
    assert Contains("わからない", NameBlacklist[1]) by { assert IsPrefix(NameBlacklist[1], "わからない"); }
    assert HitsBlacklistFrom("わからない", NameBlacklist, 1);
  }

  lemma TaroTrimmed()
    ensures Trim(" 太郎さん ") == "太郎さん"
  {
    var raw := " 太郎さん ";
    assert IsJsSpace(raw[0]) && !IsJsSpace(raw[1]);
    assert TrimStart(raw[1..]) == raw[1..];
    assert TrimStart(raw) == raw[1..];
    assert IsJsSpace(raw[5]) && !IsJsSpace(raw[4]);
    assert raw[1..][..4] == raw[1..5];
    assert TrimEnd(raw[1..5]) == raw[1..5];
    assert TrimEnd(raw[1..]) == raw[1..5];
  }

  lemma TaroStripped()
    ensures StripHonorific("太郎さん") == "太郎"
  {
    assert IsSuffix("さん", "太郎さん");
  }

  /** A rejected name capture does not end the name category: the next name rule is tried. */
  lemma RejectedNameSkipped(rs: RuleSet)
    requires |rs.name| == 2
    requires rs.name[0]("名前はわからない") == Some(Hit("わからない", 0, 8))
    requires rs.name[1]("名前はわからない") == Some(Hit(" 太郎さん ", 0, 8))
    ensures FirstValid("名前はわからない", Name, rs.name, false) == Some(Candidate(Name, "太郎", 90, false, Span(0, 8)))
  {
    var message := "名前はわからない";
    WakaranaiIsInvalidName();
    assert !Usable(Name, rs.name[0](message));
    TaroTrimmed();
    TaroIsValidName();
    assert Usable(Name, rs.name[1](message));
    assert FirstValidFrom(message, Name, rs.name, 1, false) == Some(CandidateOf(Name, Hit(" 太郎さん ", 0, 8), false));
    assert FirstValidFrom(message, Name, rs.name, 0, false) == FirstValidFrom(message, Name, rs.name, 1, false);
    TaroStripped();
    assert CandidateOf(Name, Hit(" 太郎さん ", 0, 8), false) == Candidate(Name, "太郎", 90, false, Span(0, 8));
  }

  // ---------------------------------------------------------------- analyzeWithContext

  /** これ, それ or あれ starts at index `i`. */
  predicate IsDemonstrativeAt(s: string, i: int)
  {
    0 <= i && i + 2 <= |s| && (s[i..i + 2] == "これ" || s[i..i + 2] == "それ" || s[i..i + 2] == "あれ")
  }

  /** The leftmost demonstrative at or after `from`. */
  function FirstDemonstrative(s: string, from: nat): (r: Option<nat>)
    ensures r.Some? ==> from <= r.value && IsDemonstrativeAt(s, r.value)
    ensures r.Some? ==> forall k :: from <= k < r.value ==> !IsDemonstrativeAt(s, k)
    ensures r.None? ==> forall k :: from <= k ==> !IsDemonstrativeAt(s, k)
    decreases |s| - from
  {
    if from + 2 > |s| then None
    else if IsDemonstrativeAt(s, from) then Some(from)
    else FirstDemonstrative(s, from + 1)
  }

  /**
   * The lazy tail of `「(.+?)」`: from index `k`, the first `close` reached before any line
   * terminator (the regular expression's `.` does not cross a line).
   */
  function CloseFrom(s: string, k: nat, close: char): (r: Option<nat>)
    ensures r.Some? ==> k <= r.value < |s| && s[r.value] == close
    ensures r.Some? ==> forall m :: k <= m < r.value ==> s[m] != close && !IsLineBreak(s[m])
    decreases |s| - k
  {
    if k >= |s| then None
    else if s[k] == close then Some(k)
    else if IsLineBreak(s[k]) then None
    else CloseFrom(s, k + 1, close)
  }

  function ClosingFor(open: char): char
  {
    if open == '「' then '」' else '』'
  }

  /** The capture of `「(.+?)」|『(.+?)』` when a match starts at index `i`. */
  function QuoteAt(s: string, i: nat): (r: Option<string>)
    ensures r.Some? ==> r.value != [] && forall m :: 0 <= m < |r.value| ==> !IsLineBreak(r.value[m])
  {
    if i + 1 < |s| && (s[i] == '「' || s[i] == '『') && !IsLineBreak(s[i + 1]) then
      match CloseFrom(s, i + 2, ClosingFor(s[i]))
      case None => None
      case Some(j) =>
        assert forall m :: i + 1 <= m < j ==> !IsLineBreak(s[m]);
        Some(s[i + 1..j])
    else None
  }

  /** The leftmost quoted referent at or after `from`. */
  function FirstQuote(s: string, from: nat): (r: Option<string>)
    ensures r.Some? ==> r.value != [] && forall m :: 0 <= m < |r.value| ==> !IsLineBreak(r.value[m])
    ensures r.Some? ==> exists i :: from <= i < |s| && QuoteAt(s, i) == r
    decreases |s| - from
  {
    if from >= |s| then None
    else if QuoteAt(s, from).Some? then QuoteAt(s, from)
    else FirstQuote(s, from + 1)
  }

  /**
   * The replacement text `String.prototype.replace` inserts for a string replacement, with the
   * `$` patterns of ECMAScript's GetSubstitution expanded: `$$` is one `$`, `$&` the matched text,
   * `` $` `` the text before the match and `$'` the text after it. The demonstrative pattern has
   * no capture groups and no named groups, so `$1`, `$<` and a lone `$` stay as written.
   */
  function Substitute(rep: string, matched: string, before: string, after: string): string
    decreases |rep|
  {
    if rep == [] then []
    else if rep[0] == '$' && |rep| >= 2 && rep[1] == '$' then "$" + Substitute(rep[2..], matched, before, after)
    else if rep[0] == '$' && |rep| >= 2 && rep[1] == '&' then matched + Substitute(rep[2..], matched, before, after)
    else if rep[0] == '$' && |rep| >= 2 && rep[1] == '`' then before + Substitute(rep[2..], matched, before, after)
    else if rep[0] == '$' && |rep| >= 2 && rep[1] == '\'' then after + Substitute(rep[2..], matched, before, after)
    else [rep[0]] + Substitute(rep[1..], matched, before, after)
  }

  /** A replacement without `$` is inserted as it is. */
  lemma {:induction false} SubstituteLiteral(rep: string, matched: string, before: string, after: string)
    requires forall k :: 0 <= k < |rep| ==> rep[k] != '$'
    ensures Substitute(rep, matched, before, after) == rep
    decreases |rep|
  {
    if rep != [] {
      SubstituteLiteral(rep[1..], matched, before, after);
      assert [rep[0]] + rep[1..] == rep;
    }
  }

  /** `$$` inserts one `$`, and `$&` the matched text itself. */
  lemma SubstituteEscapes(matched: string, before: string, after: string)
    ensures Substitute("$$", matched, before, after) == "$"
    ensures Substitute("$&", matched, before, after) == matched
  {
    assert "$$"[2..] == [];
    assert "$&"[2..] == [];
  }

  /** `message.replace(/(?:これ|それ|あれ)/, referent)`: only the first demonstrative is replaced. */
  function ExpandDemonstrative(message: string, referent: string): (r: string)
    ensures FirstDemonstrative(message, 0).None? ==> r == message
    ensures FirstDemonstrative(message, 0).Some? ==>
              var i := FirstDemonstrative(message, 0).value;
              var sub := Substitute(referent, message[i..i + 2], message[..i], message[i + 2..]);
              && |r| == |message| - 2 + |sub|
              && r[..i] == message[..i] && r[i..i + |sub|] == sub && r[i + |sub|..] == message[i + 2..]
  {
    match FirstDemonstrative(message, 0)
    case None => message
    case Some(i) => message[..i] + Substitute(referent, message[i..i + 2], message[..i], message[i + 2..]) + message[i + 2..]
  }

  /** A referent without `$` lands verbatim where the first demonstrative was. */
  lemma ExpandLiteralReferent(message: string, referent: string)
    requires FirstDemonstrative(message, 0).Some?
    requires forall k :: 0 <= k < |referent| ==> referent[k] != '$'
    ensures OccursAt(ExpandDemonstrative(message, referent), referent, FirstDemonstrative(message, 0).value)
  {
    var i := FirstDemonstrative(message, 0).value;
    SubstituteLiteral(referent, message[i..i + 2], message[..i], message[i + 2..]);
  }

  /** A quoted 「$$」 after これが好き gives $が好き: the escape collapses to one `$`. */
  lemma ExpandDoubleDollar()
    ensures ExpandDemonstrative("これが好き", "$$") == "$が好き"
  {
    var m := "これが好き";
    assert IsDemonstrativeAt(m, 0);
    SubstituteEscapes(m[0..2], m[..0], m[2..]);
    assert m[..0] + "$" + m[2..] == "$が好き";
  }

  /** A quoted 「$&」 puts the demonstrative back, so the message is unchanged. */
  lemma ExpandMatchPattern(message: string)
    requires FirstDemonstrative(message, 0).Some?
    ensures ExpandDemonstrative(message, "$&") == message
  {
    var i := FirstDemonstrative(message, 0).value;
    SubstituteEscapes(message[i..i + 2], message[..i], message[i + 2..]);
    assert message[..i] + message[i..i + 2] + message[i + 2..] == message;
  }

  /**
   * analyzeWithContext: when the message has a demonstrative and the previous user message
   * quotes something, extraction runs on the message with its first demonstrative replaced by
   * that quote; otherwise on the message itself.
   */
  function AnalyzeWithContext(rs: RuleSet, message: string, previousMessages: seq<string>): seq<Candidate>
  {
    if FirstDemonstrative(message, 0).Some? && |previousMessages| > 0 then
      match FirstQuote(previousMessages[|previousMessages| - 1], 0)
      case Some(referent) => Extract(rs, ExpandDemonstrative(message, referent))
      case None => Extract(rs, message)
    else Extract(rs, message)
  }

  /** Without a demonstrative, a previous message, or a quote in the last one, context changes nothing. */
  lemma AnalyzeWithContextFallsBack(rs: RuleSet, message: string, previousMessages: seq<string>)
    requires (forall k :: !IsDemonstrativeAt(message, k)) || previousMessages == []
             || FirstQuote(previousMessages[|previousMessages| - 1], 0).None?
    ensures AnalyzeWithContext(rs, message, previousMessages) == Extract(rs, message)
  {
    if FirstDemonstrative(message, 0).Some? {
      var i := FirstDemonstrative(message, 0).value;
      assert IsDemonstrativeAt(message, i);
    }
  }

  /** With all three present, extraction sees the quote in place of the first demonstrative. */
  lemma AnalyzeWithContextExpands(rs: RuleSet, message: string, previousMessages: seq<string>, referent: string)
    requires FirstDemonstrative(message, 0).Some? && previousMessages != []
    requires FirstQuote(previousMessages[|previousMessages| - 1], 0) == Some(referent)
    ensures AnalyzeWithContext(rs, message, previousMessages) == Extract(rs, ExpandDemonstrative(message, referent))
    ensures var i := FirstDemonstrative(message, 0).value;
            OccursAt(ExpandDemonstrative(message, referent), Substitute(referent, message[i..i + 2], message[..i], message[i + 2..]), i)
  {
  }

  /** 「ケーキ」 in the previous message: the lazy capture stops at the first closing bracket. */
  lemma QuoteOfCake()
    ensures QuoteAt("「ケーキ」", 0) == Some("ケーキ")
  {
    var s := "「ケーキ」";
    assert CloseFrom(s, 4, '」') == Some(4);
    assert CloseFrom(s, 3, '」') == Some(4);
    assert CloseFrom(s, 2, '」') == Some(4);
    assert s[1..4] == "ケーキ";
  }
}
