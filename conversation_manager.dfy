/**
 * The conversation manager of frontend/js/conversationManager.js: the profile merge, the
 * per-turn pipeline, the capped history log with its two retention windows, and the prompt
 * context. The two localStorage items are fields of the manager holding the stored values;
 * the profile object that a turn loads, mutates and saves back is a LiveProfile.
 * Timestamps are integer milliseconds; confidences are hundredths.
 */
module Conversation {
  import opened Wrappers
  import opened Strings
  import opened ProfileExtractor

  /** The `type` of a custom note: 'explicit' or 'contextual'. */
  datatype NoteKind = ExplicitNote | ContextualNote

  datatype Note = Note(date: int, note: string, kind: NoteKind)

  /** The stored profile: name, birthday, preferences.likes/dislikes, customNotes, lastUpdated. */
  datatype Profile = Profile(
    name: Option<string>,
    birthday: Option<string>,
    likes: seq<string>,
    dislikes: seq<string>,
    notes: seq<Note>,
    lastUpdated: int)

  datatype Entry = Entry(
    id: nat,
    timestamp: int,
    userMessage: string,
    aiResponse: string,
    emotion: string,
    favorabilityChange: int,
    isImportant: bool)

  datatype History = History(conversations: seq<Entry>, sessionStarted: int)

  /** What updateProfile returns, together with the profile it leaves behind. */
  datatype UpdateResult = UpdateResult(profile: Profile, updated: bool, message: string)

  /** The object createEnhancedPrompt returns. */
  datatype Prompt = Prompt(userInfo: string, recentNotes: string, conversationHistory: string, currentMessage: string, updateMessage: string)

  /** What processUserMessage returns. */
  datatype Turn = Turn(prompt: Prompt, entry: Entry, profileUpdated: bool, updateMessages: seq<string>)

  const MaxHistoryItems: nat := 50
  const MaxContextItems: nat := 10
  const HistoryExpiryHours: nat := 24
  const ImportantExpiryDays: nat := 7
  const HourMs: nat := 3600000
  /** Candidates are merged only when their confidence is strictly above 0.7. */
  const AcceptThreshold: nat := 70
  const RecentNoteCount: nat := 5

  /** The profile initializeStorage writes when none is stored. */
  function DefaultProfile(now: int): Profile
  {
    Profile(None, None, [], [], [], now)
  }

  /** The history initializeStorage writes when none is stored. */
  function DefaultHistory(now: int): History
  {
    History([], now)
  }

  // ---------------------------------------------------------------- profile merge

  predicate HasNote(notes: seq<Note>, text: string)
  {
    exists i :: 0 <= i < |notes| && notes[i].note == text
  }

  predicate NoDuplicates(s: seq<string>)
  {
    forall i, j :: 0 <= i < j < |s| ==> s[i] != s[j]
  }

  predicate DistinctNoteTexts(notes: seq<Note>)
  {
    forall i, j :: 0 <= i < j < |notes| ==> notes[i].note != notes[j].note
  }

  /** The profile invariants: no like or dislike twice, no two notes with the same text. */
  predicate ProfileInvariant(p: Profile)
  {
    NoDuplicates(p.likes) && NoDuplicates(p.dislikes) && DistinctNoteTexts(p.notes)
  }

  /** updateProfile: name and birthday overwrite; likes, dislikes and notes are inserted only when absent. */
  function UpdateProfile(p: Profile, info: Candidate, now: int): UpdateResult
  {
    var v := info.value;
    match info.kind
    case Name => UpdateResult(p.(name := Some(v)), true, "お名前を「" + v + "」として記憶しました")
    case Memory =>
      if HasNote(p.notes, v) then UpdateResult(p, false, "")
      else
        var note := Note(now, v, if info.explicit then ExplicitNote else ContextualNote);
        UpdateResult(p.(notes := p.notes + [note]), true, "大切な情報として記憶しました")
    case Birthday => UpdateResult(p.(birthday := Some(v)), true, "誕生日を" + v + "として記憶しました")
    case Like =>
      if v in p.likes then UpdateResult(p, false, "")
      else UpdateResult(p.(likes := p.likes + [v]), true, "「" + v + "」が好きなことを記憶しました")
    case Dislike =>
      if v in p.dislikes then UpdateResult(p, false, "")
      else UpdateResult(p.(dislikes := p.dislikes + [v]), true, "「" + v + "」が苦手なことを記憶しました")
  }

  /**
   * What a merge means: afterwards the value is recorded under its kind; a merge reports an
   * update exactly when it changed the profile (name and birthday always report one); an
   * update carries a non-empty confirmation; only the field of the candidate's kind changes;
   * lists only grow at their end, a new like or dislike by exactly that one value.
   */
  lemma UpdateProfileMeaning(p: Profile, info: Candidate, now: int)
    ensures var r := UpdateProfile(p, info, now);
      && (info.kind == Name ==> r.updated && r.profile.name == Some(info.value))
      && (info.kind == Birthday ==> r.updated && r.profile.birthday == Some(info.value))
      && (info.kind == Like ==> info.value in r.profile.likes && (r.updated <==> info.value !in p.likes))
      && (info.kind == Like && info.value !in p.likes ==> r.profile.likes == p.likes + [info.value])
      && (info.kind == Dislike ==> info.value in r.profile.dislikes && (r.updated <==> info.value !in p.dislikes))
      && (info.kind == Dislike && info.value !in p.dislikes ==> r.profile.dislikes == p.dislikes + [info.value])
      && (info.kind == Memory ==> HasNote(r.profile.notes, info.value) && (r.updated <==> !HasNote(p.notes, info.value)))
      && (info.kind in {Like, Dislike, Memory} ==> (r.updated <==> r.profile != p))
      && (r.updated <==> r.message != "")
      && (info.kind != Name ==> r.profile.name == p.name)
      && (info.kind != Birthday ==> r.profile.birthday == p.birthday)
      && IsPrefixSeq(p.likes, r.profile.likes) && IsPrefixSeq(p.dislikes, r.profile.dislikes) && IsPrefixSeq(p.notes, r.profile.notes)
      && (info.kind != Like ==> r.profile.likes == p.likes)
      && (info.kind != Dislike ==> r.profile.dislikes == p.dislikes)
      && (info.kind != Memory ==> r.profile.notes == p.notes)
      && r.profile.lastUpdated == p.lastUpdated
  {
    var r := UpdateProfile(p, info, now);
    if info.kind == Memory && !HasNote(p.notes, info.value) {
      assert r.profile.notes[|p.notes|].note == info.value;
    }
    if info.kind in {Like, Dislike, Memory} && r.updated {
      assert |r.profile.likes| + |r.profile.dislikes| + |r.profile.notes| == |p.likes| + |p.dislikes| + |p.notes| + 1;
    }
  }

  predicate IsPrefixSeq<T(==)>(a: seq<T>, b: seq<T>)
  {
    |a| <= |b| && b[..|a|] == a
  }

  /** A new note is 'explicit' iff the candidate was explicitly requested. */
  lemma NewNoteKind(p: Profile, info: Candidate, now: int)
    requires info.kind == Memory && !HasNote(p.notes, info.value)
    ensures var n := UpdateProfile(p, info, now).profile.notes;
            |n| == |p.notes| + 1 && n[|p.notes|] == Note(now, info.value, if info.explicit then ExplicitNote else ContextualNote)
  {
  }

  /** Merging never introduces a duplicate like, dislike or note. */
  lemma UpdatePreservesInvariant(p: Profile, info: Candidate, now: int)
    requires ProfileInvariant(p)
    ensures ProfileInvariant(UpdateProfile(p, info, now).profile)
  {
    var r := UpdateProfile(p, info, now);
    if info.kind == Memory && !HasNote(p.notes, info.value) {
      forall i, j | 0 <= i < j < |r.profile.notes| ensures r.profile.notes[i].note != r.profile.notes[j].note {
        if j == |p.notes| {
          assert r.profile.notes[i] == p.notes[i];
        }
      }
    }
  }

  /** Merging the same candidate a second time changes nothing, and reports no update for likes, dislikes and notes. */
  lemma UpdateIdempotent(p: Profile, info: Candidate, now1: int, now2: int)
    ensures var once := UpdateProfile(p, info, now1);
            var twice := UpdateProfile(once.profile, info, now2);
            twice.profile == once.profile && (info.kind in {Like, Dislike, Memory} ==> !twice.updated)
  {
    UpdateProfileMeaning(p, info, now1);
  }

  // ---------------------------------------------------------------- the live profile object

  /** The profile object a turn parses from storage and updateProfile mutates in place. */
  class LiveProfile {
    var name: Option<string>
    var birthday: Option<string>
    var likes: seq<string>
    var dislikes: seq<string>
    var notes: seq<Note>
    var lastUpdated: int

    function Snapshot(): Profile
      reads this
    {
      Profile(name, birthday, likes, dislikes, notes, lastUpdated)
    }

    /** loadUserProfile: the parsed copy of the stored profile. */
    constructor Load(p: Profile)
      ensures Snapshot() == p
    {
      name, birthday, likes, dislikes, notes, lastUpdated := p.name, p.birthday, p.likes, p.dislikes, p.notes, p.lastUpdated;
    }

    /** updateProfile on this object. */
    method Update(info: Candidate, now: int) returns (updated: bool, message: string)
      modifies this
      ensures UpdateResult(Snapshot(), updated, message) == UpdateProfile(old(Snapshot()), info, now)
    {
      updated, message := false, "";
      var v := info.value;
      match info.kind {
        case Name =>
          name := Some(v);
          message := "お名前を「" + v + "」として記憶しました";
          updated := true;
        case Memory =>
          var isDuplicate := exists i :: 0 <= i < |notes| && notes[i].note == v;
          if !isDuplicate {
            notes := notes + [Note(now, v, if info.explicit then ExplicitNote else ContextualNote)];
            message := "大切な情報として記憶しました";
            updated := true;
          }
        case Birthday =>
          birthday := Some(v);
          message := "誕生日を" + v + "として記憶しました";
          updated := true;
        case Like =>
          if v !in likes {
            likes := likes + [v];
            message := "「" + v + "」が好きなことを記憶しました";
            updated := true;
          }
        case Dislike =>
          if v !in dislikes {
            dislikes := dislikes + [v];
            message := "「" + v + "」が苦手なことを記憶しました";
            updated := true;
          }
      }
    }
  }

  // ---------------------------------------------------------------- one turn's merges

  datatype MergeState = MergeState(profile: Profile, updated: bool, messages: seq<string>)

  /** The profile loop of processUserMessage over the first |infos| candidates. */
  function MergeAll(p: Profile, infos: seq<Candidate>, now: int): MergeState
  {
    if infos == [] then MergeState(p, false, [])
    else MergeStep(MergeAll(p, infos[..|infos| - 1], now), infos[|infos| - 1], now)
  }

  /** One candidate of the merge loop: merged only above the threshold, its message kept only if it changed something. */
  function MergeStep(st: MergeState, info: Candidate, now: int): MergeState
  {
    if info.confidence > AcceptThreshold then
      var r := UpdateProfile(st.profile, info, now);
      if r.updated then MergeState(r.profile, true, st.messages + [r.message])
      else MergeState(r.profile, st.updated, st.messages)
    else st
  }

  /** The candidates above the threshold, in order. */
  function Accepted(infos: seq<Candidate>): (r: seq<Candidate>)
    ensures forall c :: c in r ==> c in infos && c.confidence > AcceptThreshold
    ensures forall c :: c in infos && c.confidence > AcceptThreshold ==> c in r
  {
    if infos == [] then []
    else Accepted(infos[..|infos| - 1]) + (if infos[|infos| - 1].confidence > AcceptThreshold then [infos[|infos| - 1]] else [])
  }

  /** Only candidates strictly above 0.7 take part: dropping the others changes nothing. */
  lemma {:induction false} MergeAllOnlyAccepted(p: Profile, infos: seq<Candidate>, now: int)
    ensures MergeAll(p, infos, now) == MergeAll(p, Accepted(infos), now)
  {
    if infos != [] {
      var front := infos[..|infos| - 1];
      MergeAllOnlyAccepted(p, front, now);
      var last := infos[|infos| - 1];
      if last.confidence > AcceptThreshold {
        var a := Accepted(front) + [last];
        assert Accepted(infos) == a;
        assert a[..|a| - 1] == Accepted(front);
      } else {
        assert Accepted(infos) == Accepted(front);
      }
    }
  }

  /** A turn's merges keep the profile invariants, keep every earlier note, and report an update iff some merge produced a message. */
  lemma {:induction false} MergeAllPreserves(p: Profile, infos: seq<Candidate>, now: int)
    requires ProfileInvariant(p)
    ensures var st := MergeAll(p, infos, now);
            && ProfileInvariant(st.profile)
            && IsPrefixSeq(p.notes, st.profile.notes)
            && (st.updated <==> st.messages != [])
            && (!st.updated ==> st.profile == p)
  {
    if infos != [] {
      var front := infos[..|infos| - 1];
      MergeAllPreserves(p, front, now);
      var st := MergeAll(p, front, now);
      var info := infos[|infos| - 1];
      UpdatePreservesInvariant(st.profile, info, now);
      UpdateProfileMeaning(st.profile, info, now);
    }
  }

  /**
   * A note merged during a turn is 'contextual' only if a contextual candidate passed the
   * threshold; when every unrequested memory candidate is at most 0.7, every new note is 'explicit'.
   */
  lemma {:induction false} MergeAllNewNotesExplicit(p: Profile, infos: seq<Candidate>, now: int)
    requires forall c :: c in infos && c.kind == Memory && !c.explicit ==> c.confidence <= AcceptThreshold
    ensures var n := MergeAll(p, infos, now).profile.notes;
            IsPrefixSeq(p.notes, n) && forall k :: |p.notes| <= k < |n| ==> n[k].kind == ExplicitNote
  {
    if infos != [] {
      var front := infos[..|infos| - 1];
      MergeAllNewNotesExplicit(p, front, now);
      var st := MergeAll(p, front, now);
      var info := infos[|infos| - 1];
      UpdateProfileMeaning(st.profile, info, now);
    }
  }

  /** Contextual notes (0.6) from the extractor are never stored. */
  lemma ContextualNotesNeverStored(rs: RuleSet, message: string, p: Profile, now: int)
    ensures var n := MergeAll(p, Extract(rs, message), now).profile.notes;
            IsPrefixSeq(p.notes, n) && forall k :: |p.notes| <= k < |n| ==> n[k].kind == ExplicitNote
  {
    ExtractParts(rs, message);
    ExtractContextualNote(rs, message);
    MergeAllNewNotesExplicit(p, Extract(rs, message), now);
  }

  /** `extractedInfos.some(info => info.isExplicitlyRequested)`. */
  predicate AnyExplicit(infos: seq<Candidate>)
  {
    exists i :: 0 <= i < |infos| && infos[i].explicit
  }

  // ---------------------------------------------------------------- the history log

  /** saveConversationHistory's cap: the newest MaxHistoryItems entries. */
  function Cap(s: seq<Entry>): (r: seq<Entry>)
    ensures |r| == if |s| <= MaxHistoryItems then |s| else MaxHistoryItems
    ensures r == s[|s| - |r|..]
  {
    if |s| > MaxHistoryItems then s[|s| - MaxHistoryItems..] else s
  }

  /** Capping the log and then appending more, then capping again, equals capping once at the end. */
  lemma CapAbsorbs(x: seq<Entry>, y: seq<Entry>)
    ensures Cap(Cap(x) + y) == Cap(x + y)
  {
    if |x| > MaxHistoryItems {
      var cx := Cap(x);
      assert |cx + y| >= MaxHistoryItems;
      var k := |x| - MaxHistoryItems;
      assert x + y == x[..k] + (cx + y);
      assert (x + y)[|x + y| - |Cap(x + y)|..] == (cx + y)[|cx + y| - |Cap(cx + y)|..];
    }
  }

  /** Saving the entries one by one, each save capped. */
  function SaveAll(log: seq<Entry>, entries: seq<Entry>): seq<Entry>
    decreases |entries|
  {
    if entries == [] then log else SaveAll(Cap(log + [entries[0]]), entries[1..])
  }

  /** The log after any run of saves is the newest 50 of everything saved, in the original order. */
  lemma {:induction false} SaveAllKeepsNewest(log: seq<Entry>, entries: seq<Entry>)
    requires |log| <= MaxHistoryItems
    ensures SaveAll(log, entries) == Cap(log + entries)
    decreases |entries|
  {
    if entries != [] {
      var first := log + [entries[0]];
      var rest := entries[1..];
      SaveAllKeepsNewest(Cap(first), rest);
      CapAbsorbs(first, rest);
      ConsSplit(log, entries);
    }
  }

  lemma ConsSplit(log: seq<Entry>, entries: seq<Entry>)
    requires entries != []
    ensures log + [entries[0]] + entries[1..] == log + entries
  {
    assert entries == [entries[0]] + entries[1..];
  }

  /** Saving 51 entries into an empty log keeps the last 50: the first is evicted. */
  lemma FiftyOneSaves(entries: seq<Entry>)
    requires |entries| == 51
    ensures SaveAll([], entries) == entries[1..]
  {
    SaveAllKeepsNewest([], entries);
    assert [] + entries == entries;
  }

  /** getRecentHistory: `slice(-count)`; `slice(-0)` is the whole log. */
  function Recent(s: seq<Entry>, count: nat): (r: seq<Entry>)
    ensures count == 0 ==> r == s
    ensures count > 0 ==> |r| == (if count < |s| then count else |s|)
    ensures r == s[|s| - |r|..]
  {
    if count == 0 || count >= |s| then s else s[|s| - count..]
  }

  /** The retention rule of cleanupOldHistory: 7 days for important entries, 24 hours otherwise. */
  predicate Kept(e: Entry, now: int)
  {
    if e.isImportant then now - e.timestamp < ImportantExpiryDays * 24 * HourMs
    else now - e.timestamp < HistoryExpiryHours * HourMs
  }

  /** cleanupOldHistory's filter. */
  function Retained(s: seq<Entry>, now: int): (r: seq<Entry>)
    ensures |r| <= |s|
  {
    if s == [] then [] else (if Kept(s[0], now) then [s[0]] else []) + Retained(s[1..], now)
  }

  /** Exactly the entries inside their window survive. */
  lemma {:induction false} RetainedMembers(s: seq<Entry>, now: int)
    ensures forall e :: e in Retained(s, now) <==> e in s && Kept(e, now)
  {
    if s != [] {
      RetainedMembers(s[1..], now);
      assert forall e :: e in s <==> e == s[0] || e in s[1..];
    }
  }

  /** Filtering distributes over concatenation, so survivors keep their relative order. */
  lemma {:induction false} RetainedAppend(a: seq<Entry>, b: seq<Entry>, now: int)
    ensures Retained(a + b, now) == Retained(a, now) + Retained(b, now)
  {
    if a != [] {
      RetainedAppend(a[1..], b, now);
      assert (a + b)[1..] == a[1..] + b;
    } else {
      assert a + b == b;
    }
  }

  /** A later cleanup removes everything an earlier one did: expiry is monotone in time. */
  lemma {:induction false} RetainedMonotone(s: seq<Entry>, t1: int, t2: int)
    requires t1 <= t2
    ensures Retained(Retained(s, t1), t2) == Retained(s, t2)
  {
    if s != [] {
      RetainedMonotone(s[1..], t1, t2);
      var head := if Kept(s[0], t1) then [s[0]] else [];
      RetainedAppend(head, Retained(s[1..], t1), t2);
      if Kept(s[0], t1) {
        assert Retained(head, t2) == (if Kept(s[0], t2) then [s[0]] else []) by {
          assert head[1..] == [];
        }
      }
    }
  }

  /** Entries just inside and just outside the two expiry windows: 6, 7 and 8 days; 23, 24 and 25 hours. */
  lemma RetentionWindows(e: Entry)
    ensures e.isImportant ==> Kept(e, e.timestamp + 6 * 24 * HourMs) && !Kept(e, e.timestamp + 8 * 24 * HourMs)
    ensures !e.isImportant ==> Kept(e, e.timestamp + 23 * HourMs) && !Kept(e, e.timestamp + 25 * HourMs)
    ensures e.isImportant ==> !Kept(e, e.timestamp + 7 * 24 * HourMs)
    ensures !e.isImportant ==> !Kept(e, e.timestamp + 24 * HourMs)
  {
  }

  // ---------------------------------------------------------------- the prompt context

  predicate Truthy(s: Option<string>)
  {
    s.Some? && s.value != ""
  }

  /** The profile lines of createEnhancedPrompt, each only for a present, non-empty field. */
  function ProfileLines(p: Profile): (r: seq<string>)
    ensures |r| <= 4
    ensures r == [] <==> !Truthy(p.name) && !Truthy(p.birthday) && p.likes == [] && p.dislikes == []
    ensures Truthy(p.name) ==> r[0] == "名前: " + p.name.value + "さん"
    ensures p.dislikes != [] ==> r[|r| - 1] == "嫌いなもの: " + Join(p.dislikes, "、")
  {
    (if Truthy(p.name) then ["名前: " + p.name.value + "さん"] else [])
    + (if Truthy(p.birthday) then ["誕生日: " + p.birthday.value] else [])
    + (if |p.likes| > 0 then ["好きなもの: " + Join(p.likes, "、")] else [])
    + (if |p.dislikes| > 0 then ["嫌いなもの: " + Join(p.dislikes, "、")] else [])
  }

  /** Whether profile line `f` (0 name, 1 birthday, 2 likes, 3 dislikes) is shown. */
  predicate LineShown(p: Profile, f: nat)
  {
    if f == 0 then Truthy(p.name)
    else if f == 1 then Truthy(p.birthday)
    else if f == 2 then p.likes != []
    else f == 3 && p.dislikes != []
  }

  /** The text of profile line `f` when it is shown. */
  function LineText(p: Profile, f: nat): string
    requires LineShown(p, f)
  {
    if f == 0 then "名前: " + p.name.value + "さん"
    else if f == 1 then "誕生日: " + p.birthday.value
    else if f == 2 then "好きなもの: " + Join(p.likes, "、")
    else "嫌いなもの: " + Join(p.dislikes, "、")
  }

  /** How many of the lines before `f` are shown. */
  function ShownBefore(p: Profile, f: nat): nat
  {
    if f == 0 then 0 else ShownBefore(p, f - 1) + (if LineShown(p, f - 1) then 1 else 0)
  }

  /**
   * Each line is shown iff its field is present and non-empty, in the fixed order name,
   * birthday, likes, dislikes, and there are no other lines: a shown line sits after exactly
   * the shown lines before it, and the count is the number of shown lines.
   */
  lemma ProfileLinesMeaning(p: Profile)
    ensures |ProfileLines(p)| == ShownBefore(p, 4)
    ensures forall f :: 0 <= f < 4 && LineShown(p, f) ==> ShownBefore(p, f) < |ProfileLines(p)| && ProfileLines(p)[ShownBefore(p, f)] == LineText(p, f)
  {
    var r := ProfileLines(p);
    var n := if Truthy(p.name) then ["名前: " + p.name.value + "さん"] else [];
    var b := if Truthy(p.birthday) then ["誕生日: " + p.birthday.value] else [];
    var l := if |p.likes| > 0 then ["好きなもの: " + Join(p.likes, "、")] else [];
    var d := if |p.dislikes| > 0 then ["嫌いなもの: " + Join(p.dislikes, "、")] else [];
    assert r == n + b + l + d;
    assert ShownBefore(p, 1) == |n|;
    assert ShownBefore(p, 2) == |n| + |b|;
    assert ShownBefore(p, 3) == |n| + |b| + |l|;
    assert ShownBefore(p, 4) == |n| + |b| + |l| + |d|;
    forall f | 0 <= f < 4 && LineShown(p, f)
      ensures ShownBefore(p, f) < |r| && r[ShownBefore(p, f)] == LineText(p, f)
    {
      if f == 0 {
        assert r[0] == (n + b + l + d)[0];
      } else if f == 1 {
        assert r[|n|] == (n + b + l + d)[|n|];
      } else if f == 2 {
        assert r[|n| + |b|] == (n + b + l + d)[|n| + |b|];
      } else {
        assert r[|n| + |b| + |l|] == (n + b + l + d)[|n| + |b| + |l|];
      }
    }
  }

  /** The last five notes, oldest first, each as "- " and its text. */
  function NoteLines(notes: seq<Note>): (r: seq<string>)
    ensures |r| == if |notes| < RecentNoteCount then |notes| else RecentNoteCount
    ensures forall i :: 0 <= i < |r| ==> r[i] == "- " + notes[|notes| - |r| + i].note
  {
    var recent := if |notes| > RecentNoteCount then notes[|notes| - RecentNoteCount..] else notes;
    seq(|recent|, i requires 0 <= i < |recent| => "- " + recent[i].note)
  }

  function RenderEntry(e: Entry): string
  {
    "ユーザー: " + e.userMessage + "\nBella: " + e.aiResponse
  }

  function RenderEntries(h: seq<Entry>): (r: seq<string>)
    ensures |r| == |h| && forall i :: 0 <= i < |h| ==> r[i] == RenderEntry(h[i])
  {
    seq(|h|, i requires 0 <= i < |h| => RenderEntry(h[i]))
  }

  /** The history block: one user/Bella pair per entry, pairs separated by a blank line. */
  function RenderHistory(h: seq<Entry>): string
  {
    Join(RenderEntries(h), "\n\n")
  }

  /** Rendering a longer window is rendering its two halves with one blank line between. */
  lemma RenderHistoryAppend(a: seq<Entry>, b: seq<Entry>)
    requires a != [] && b != []
    ensures RenderHistory(a + b) == RenderHistory(a) + "\n\n" + RenderHistory(b)
  {
    assert RenderEntries(a + b) == RenderEntries(a) + RenderEntries(b);
    JoinAppend(RenderEntries(a), RenderEntries(b), "\n\n");
  }

  lemma RenderHistorySingle(e: Entry)
    ensures RenderHistory([e]) == "ユーザー: " + e.userMessage + "\nBella: " + e.aiResponse
  {
  }

  /** createEnhancedPrompt. */
  function CreateEnhancedPrompt(message: string, p: Profile, history: seq<Entry>, updateMessage: string): Prompt
  {
    Prompt(Join(ProfileLines(p), "\n"), Join(NoteLines(p.notes), "\n"), RenderHistory(history), message, updateMessage)
  }

  // ---------------------------------------------------------------- the manager

  class ConversationManager {
    /** The extractor's pattern tables. */
    const rules: RuleSet
    /** localStorage 'bella_user_profile'. */
    var profile: Profile
    /** localStorage 'bella_conversation_history'. */
    var history: History

    /** Every save goes through the cap, so the stored log never exceeds it. */
    predicate Valid()
      reads this
    {
      |history.conversations| <= MaxHistoryItems
    }

    /** The constructor's initializeStorage: defaults for missing items, then one cleanup pass. */
    constructor (rules: RuleSet, storedProfile: Option<Profile>, storedHistory: Option<History>, now: int)
      ensures Valid() && this.rules == rules
      ensures profile == if storedProfile.Some? then storedProfile.value else DefaultProfile(now)
      ensures var h := if storedHistory.Some? then storedHistory.value else DefaultHistory(now);
              history == h.(conversations := Cap(Retained(h.conversations, now)))
    {
      this.rules := rules;
      profile := if storedProfile.Some? then storedProfile.value else DefaultProfile(now);
      history := if storedHistory.Some? then storedHistory.value else DefaultHistory(now);
      new;
      CleanupOldHistory(now);
    }

    /** saveConversationHistory: keeps the newest 50 entries. */
    method SaveConversationHistory(h: History)
      modifies this
      ensures Valid()
      ensures history == h.(conversations := Cap(h.conversations)) && profile == old(profile)
    {
      var conversations := h.conversations;
      if |conversations| > MaxHistoryItems {
        conversations := conversations[|conversations| - MaxHistoryItems..];
      }
      history := h.(conversations := conversations);
    }

    /** saveConversation: appends at the newest end, then saves through the cap. */
    method SaveConversation(entry: Entry)
      modifies this
      ensures Valid()
      ensures history == old(history).(conversations := Cap(old(history).conversations + [entry]))
      ensures profile == old(profile)
    {
      var h := history;
      h := h.(conversations := h.conversations + [entry]);
      SaveConversationHistory(h);
    }

    /** getRecentHistory. */
    method GetRecentHistory(count: nat) returns (recent: seq<Entry>)
      ensures recent == Recent(history.conversations, count)
    {
      var all := history.conversations;
      if count == 0 || count >= |all| {
        recent := all;
      } else {
        recent := all[|all| - count..];
      }
    }

    /** cleanupOldHistory: drops the entries outside their retention window, keeping order. */
    method CleanupOldHistory(now: int)
      modifies this
      ensures Valid()
      ensures history == old(history).(conversations := Cap(Retained(old(history).conversations, now)))
      ensures old(Valid()) ==> history.conversations == Retained(old(history).conversations, now)
      ensures profile == old(profile)
    {
      var h := history;
      h := h.(conversations := Retained(h.conversations, now));
      SaveConversationHistory(h);
    }

    /** resetAllData: both items removed, then initializeStorage. */
    method ResetAllData(now: int)
      modifies this
      ensures Valid()
      ensures profile == DefaultProfile(now) && history == DefaultHistory(now)
    {
      profile := DefaultProfile(now);
      SaveConversationHistory(DefaultHistory(now));
      CleanupOldHistory(now);
    }

    /**
     * processUserMessage: extracts, merges the candidates above 0.7 into the loaded profile,
     * saves it with a fresh lastUpdated only if something changed, builds the pending entry and
     * the prompt. The entry is important iff the profile changed or some candidate (even one
     * below the threshold) was explicitly requested. The history is not touched.
     */
    method ProcessUserMessage(message: string, id: nat, now: int) returns (turn: Turn)
      requires Valid()
      modifies this
      ensures Valid() && history == old(history)
      ensures var infos := Extract(rules, message);
              var st := MergeAll(old(profile), infos, now);
              && profile == (if st.updated then st.profile.(lastUpdated := now) else old(profile))
              && turn.profileUpdated == st.updated
              && turn.updateMessages == st.messages
              && turn.entry == Entry(id, now, message, "", "neutral", 0, st.updated || AnyExplicit(infos))
              && turn.prompt == CreateEnhancedPrompt(message, profile, Recent(history.conversations, MaxContextItems), Join(st.messages, "、"))
    {
      var infos := ExtractMultipleInfo(rules, message);
      var live := new LiveProfile.Load(profile);
      var profileUpdated, updateMessages := MergeInto(live, infos, now);
      MergeAllUnchangedWithoutUpdate(old(profile), infos, now);
      if profileUpdated {
        live.lastUpdated := now;
        profile := live.Snapshot();
      }
      var isImportant := profileUpdated || AnyExplicit(infos);
      var entry := Entry(id, now, message, "", "neutral", 0, isImportant);
      var recentHistory := GetRecentHistory(MaxContextItems);
      var prompt := CreateEnhancedPrompt(message, live.Snapshot(), recentHistory, Join(updateMessages, "、"));
      turn := Turn(prompt, entry, profileUpdated, updateMessages);
    }
  }

  /**
   * The merge loop of processUserMessage: every candidate above 0.7 goes through updateProfile
   * on the live profile, and the confirmations of the merges that changed something are kept.
   */
  method MergeInto(live: LiveProfile, infos: seq<Candidate>, now: int) returns (updated: bool, messages: seq<string>)
    modifies live
    ensures MergeState(live.Snapshot(), updated, messages) == MergeAll(old(live.Snapshot()), infos, now)
  {
    updated := false;
    messages := [];
    var i := 0;
    while i < |infos|
      invariant 0 <= i <= |infos|
      invariant MergeState(live.Snapshot(), updated, messages) == MergeAll(old(live.Snapshot()), infos[..i], now)
    {
      assert infos[..i + 1][..i] == infos[..i];
      updated, messages := MergeOne(live, infos[i], now, updated, messages);
      i := i + 1;
    }
    assert infos[..|infos|] == infos;
  }

  /** The body of the merge loop for one candidate. */
  method MergeOne(live: LiveProfile, info: Candidate, now: int, updated: bool, messages: seq<string>)
      returns (updated': bool, messages': seq<string>)
    modifies live
    ensures MergeState(live.Snapshot(), updated', messages') == MergeStep(MergeState(old(live.Snapshot()), updated, messages), info, now)
  {
    updated', messages' := updated, messages;
    if info.confidence > AcceptThreshold {
      var changed, msg := live.Update(info, now);
      if changed {
        updated' := true;
        messages' := messages + [msg];
      }
    }
  }

  /** A turn in which no merge reported an update leaves the loaded profile as it was. */
  lemma {:induction false} MergeAllUnchangedWithoutUpdate(p: Profile, infos: seq<Candidate>, now: int)
    ensures !MergeAll(p, infos, now).updated ==> MergeAll(p, infos, now).profile == p
  {
    if infos != [] {
      var front := infos[..|infos| - 1];
      MergeAllUnchangedWithoutUpdate(p, front, now);
      var st := MergeAll(p, front, now);
      UpdateProfileMeaning(st.profile, infos[|infos| - 1], now);
    }
  }
}
