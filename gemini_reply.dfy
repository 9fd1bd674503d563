/**
 * The reply post-processing of backend/services/gemini.js: locating the JSON object in the
 * model's answer, validating and clamping the parsed reply with a fixed fallback, and the
 * replace chain that prepares the text for speech synthesis. JSON.parse and JavaScript's
 * number coercion of strings are parameters; each regular expression of the chain is written
 * out as the scan it performs.
 */
module GeminiReply {
  import opened Wrappers
  import opened Strings

  // ---------------------------------------------------------------- cleanTextForSpeech

  /** The length of the longest prefix of `s` whose characters all satisfy `p`. */
  function RunLength(s: string, p: char -> bool): (k: nat)
    ensures k <= |s|
    ensures forall i :: 0 <= i < k ==> p(s[i])
    ensures k == |s| || !p(s[k])
  {
    if s == [] || !p(s[0]) then 0 else 1 + RunLength(s[1..], p)
  }

  /**
   * `s.replace(/c{minLen,}/g, repl)` for a character class c: every maximal run of class
   * characters at least `minLen` long is replaced by `repl`, shorter runs are kept.
   */
  function ReplaceRuns(s: string, p: char -> bool, minLen: nat, repl: string): string
    decreases |s|
  {
    if s == [] then []
    else if p(s[0]) then
      var k := RunLength(s, p);
      (if k >= minLen then repl else s[..k]) + ReplaceRuns(s[k..], p, minLen, repl)
    else [s[0]] + ReplaceRuns(s[1..], p, minLen, repl)
  }

  /** Deleting the runs that reach `minLen` leaves no such run and no other character is touched. */
  lemma {:induction false} ReplaceRunsKeepsOthers(s: string, p: char -> bool, minLen: nat, repl: string, c: char)
    requires !p(c) && c !in repl
    ensures multiset(ReplaceRuns(s, p, minLen, repl))[c] == multiset(s)[c]
    decreases |s|
  {
    if s != [] {
      if p(s[0]) {
        var k := RunLength(s, p);
        ReplaceRunsKeepsOthers(s[k..], p, minLen, repl, c);
        assert s == s[..k] + s[k..];
        assert c !in s[..k];
      } else {
        ReplaceRunsKeepsOthers(s[1..], p, minLen, repl, c);
        assert s == [s[0]] + s[1..];
      }
    }
  }

  /** The first index of `c` in `s`. */
  function FindChar(s: string, c: char): (r: Option<nat>)
    ensures r.Some? ==> r.value < |s| && s[r.value] == c && c !in s[..r.value]
    ensures r.None? ==> c !in s
  {
    if s == [] then None
    else if s[0] == c then Some(0)
    else match FindChar(s[1..], c) {
      case None => None
      case Some(i) => assert s[..i + 1] == [s[0]] + s[1..][..i]; Some(i + 1)
    }
  }

  predicate IsNoteColon(c: char)
  {
    c == '：' || c == ':'
  }

  /**
   * `s.replace(/<open>[：:][^<close>]*<close>/g, '')`: a note opened by `open` and a colon runs
   * to the first `close`; it is deleted whole. An opening without a closing character stays.
   */
  function DeleteNotes(s: string, open: string, close: char): string
    decreases |s|
  {
    if s == [] then []
    else if IsPrefix(open, s) && |s| > |open| && IsNoteColon(s[|open|]) && FindChar(s[|open| + 1..], close).Some? then
      var k := FindChar(s[|open| + 1..], close).value;
      DeleteNotes(s[|open| + 1 + k + 1..], open, close)
    else [s[0]] + DeleteNotes(s[1..], open, close)
  }

  predicate IsSentenceEnd(c: char)
  {
    c == '。' || c == '！' || c == '？'
  }

  predicate InAside(c: char)
  {
    !IsSentenceEnd(c) && c != '\n'
  }

  /** `s.replace(/※[^。！？\n]*[。！？]?/g, '')`: from ※ up to the line or sentence end, with the sentence mark. */
  function DeleteAsides(s: string): string
    decreases |s|
  {
    if s == [] then []
    else if s[0] == '※' then
      var rest := s[1 + RunLength(s[1..], InAside)..];
      if rest != [] && IsSentenceEnd(rest[0]) then DeleteAsides(rest[1..]) else DeleteAsides(rest)
    else [s[0]] + DeleteAsides(s[1..])
  }

  /** `s.replace(/[lo-hi]/gu, '')`. */
  function RemoveRange(s: string, lo: char, hi: char): (r: string)
    ensures forall i :: 0 <= i < |r| ==> !(lo <= r[i] <= hi)
    ensures |r| <= |s|
  {
    if s == [] then []
    else (if lo <= s[0] <= hi then [] else [s[0]]) + RemoveRange(s[1..], lo, hi)
  }

  predicate IsSlash(c: char) { c == '/' }
  predicate IsDot(c: char) { c == '.' }
  predicate IsFullStop(c: char) { c == '。' }
  predicate IsBang(c: char) { c == '！' }
  predicate IsQuestion(c: char) { c == '？' }
  predicate IsNewline(c: char) { c == '\n' }

  /** The chain of replacements up to, but not including, the final trim. */
  function Untrimmed(text: string): string
  {
    var s1 := ReplaceRuns(text, IsSlash, 3, "");
    var s2 := DeleteNotes(s1, "（メモ", '）');
    var s3 := DeleteNotes(s2, "(メモ", ')');
    var s4 := DeleteAsides(s3);
    var s8 := ReplaceRuns(RemoveEmoji(s4), IsDot, 3, "...");
    var s9 := ReplaceRuns(s8, IsFullStop, 2, "。");
    var s10 := ReplaceRuns(s9, IsBang, 2, "！");
    var s11 := ReplaceRuns(s10, IsQuestion, 2, "？");
    var s12 := ReplaceRuns(s11, IsNewline, 1, "");
    ReplaceRuns(s12, IsJsSpace, 1, " ")
  }

  /** cleanTextForSpeech. */
  function CleanTextForSpeech(text: string): string
  {
    if text == [] then [] else Trim(Untrimmed(text))
  }

  /** Text ready for the speech engine: no line break, no two whitespace characters in a row, none at either end. */
  predicate Speakable(t: string)
  {
    && (forall i :: 0 <= i < |t| ==> !IsLineBreak(t[i]))
    && (forall i :: 0 <= i < |t| - 1 ==> !(IsJsSpace(t[i]) && IsJsSpace(t[i + 1])))
    && (t == [] || (!IsJsSpace(t[0]) && !IsJsSpace(t[|t| - 1])))
  }

  /** Whitespace runs collapsed to one space: every whitespace left is a plain space and none is next to another. */
  predicate Collapsed(r: string)
  {
    && (forall i :: 0 <= i < |r| && IsJsSpace(r[i]) ==> r[i] == ' ')
    && (forall i :: 0 <= i < |r| - 1 ==> !(IsJsSpace(r[i]) && IsJsSpace(r[i + 1])))
  }

  lemma {:induction false} CollapseSpaces(s: string)
    ensures Collapsed(ReplaceRuns(s, IsJsSpace, 1, " "))
    ensures s != [] && !IsJsSpace(s[0]) ==> ReplaceRuns(s, IsJsSpace, 1, " ")[0] == s[0]
    decreases |s|
  {
    if s != [] {
      var r := ReplaceRuns(s, IsJsSpace, 1, " ");
      if IsJsSpace(s[0]) {
        var k := RunLength(s, IsJsSpace);
        CollapseSpaces(s[k..]);
        var tail := ReplaceRuns(s[k..], IsJsSpace, 1, " ");
        assert r == " " + tail;
        forall i | 0 <= i < |r| - 1 ensures !(IsJsSpace(r[i]) && IsJsSpace(r[i + 1])) {
          if i == 0 {
            assert r[1] == tail[0];
          } else {
            assert r[i] == tail[i - 1] && r[i + 1] == tail[i];
          }
        }
      } else {
        CollapseSpaces(s[1..]);
        var tail := ReplaceRuns(s[1..], IsJsSpace, 1, " ");
        assert r == [s[0]] + tail;
        forall i | 0 <= i < |r| - 1 ensures !(IsJsSpace(r[i]) && IsJsSpace(r[i + 1])) {
          if i > 0 {
            assert r[i] == tail[i - 1] && r[i + 1] == tail[i];
          }
        }
      }
    }
  }

  /** Trimming a collapsed string makes it speakable. */
  lemma TrimCollapsedIsSpeakable(r: string)
    requires Collapsed(r)
    ensures Speakable(Trim(r))
  {
    var t := Trim(r);
    TrimIsFactor(r);
    var off := TrimOffset(r);
    forall i | 0 <= i < |t| ensures !IsLineBreak(t[i]) {
      assert t[i] == r[off + i];
      LineBreakIsSpace(t[i]);
    }
    forall i | 0 <= i < |t| - 1 ensures !(IsJsSpace(t[i]) && IsJsSpace(t[i + 1])) {
      assert t[i] == r[off + i] && t[i + 1] == r[off + i + 1];
    }
  }

  /** Whatever the model wrote, the cleaned text is speakable. */
  lemma CleanTextIsSpeakable(text: string)
    ensures Speakable(CleanTextForSpeech(text))
  {
    if text != [] {
      CollapseSpacesOfUntrimmed(text);
      TrimCollapsedIsSpeakable(Untrimmed(text));
    }
  }

  lemma CollapseSpacesOfUntrimmed(text: string)
    ensures Collapsed(Untrimmed(text))
  {
    var s1 := ReplaceRuns(text, IsSlash, 3, "");
    var s2 := DeleteNotes(s1, "（メモ", '）');
    var s3 := DeleteNotes(s2, "(メモ", ')');
    var s4 := DeleteAsides(s3);
    var s8 := ReplaceRuns(RemoveEmoji(s4), IsDot, 3, "...");
    var s9 := ReplaceRuns(s8, IsFullStop, 2, "。");
    var s10 := ReplaceRuns(s9, IsBang, 2, "！");
    var s11 := ReplaceRuns(s10, IsQuestion, 2, "？");
    var s12 := ReplaceRuns(s11, IsNewline, 1, "");
    CollapseSpaces(s12);
  }

  /** An empty text is cleaned to the empty string. */
  lemma CleanEmpty()
    ensures CleanTextForSpeech("") == ""
  {
  }

  /** Every character ReplaceRuns outputs comes from its input or from the replacement. */
  lemma {:induction false} ReplaceRunsChars(s: string, p: char -> bool, minLen: nat, repl: string)
    ensures forall c :: c in ReplaceRuns(s, p, minLen, repl) ==> c in s || c in repl
    decreases |s|
  {
    if s != [] {
      if p(s[0]) {
        var k := RunLength(s, p);
        ReplaceRunsChars(s[k..], p, minLen, repl);
        assert forall c :: c in s[..k] || c in s[k..] ==> c in s;
      } else {
        ReplaceRunsChars(s[1..], p, minLen, repl);
      }
    }
  }

  predicate OutsideRange(s: string, lo: char, hi: char)
  {
    forall i :: 0 <= i < |s| ==> !(lo <= s[i] <= hi)
  }

  /** A replacement step whose replacement has no character in a range puts none back. */
  lemma ReplaceRunsOutside(s: string, p: char -> bool, minLen: nat, repl: string, lo: char, hi: char)
    requires OutsideRange(s, lo, hi) && OutsideRange(repl, lo, hi)
    ensures OutsideRange(ReplaceRuns(s, p, minLen, repl), lo, hi)
  {
    ReplaceRunsChars(s, p, minLen, repl);
    var r := ReplaceRuns(s, p, minLen, repl);
    forall i | 0 <= i < |r| ensures !(lo <= r[i] <= hi) {
      assert r[i] in r;
    }
  }

  /** The emoji and symbol blocks removed by the chain are absent from the cleaned text. */
  lemma CleanRemovesEmoji(text: string)
    ensures OutsideRange(CleanTextForSpeech(text), '\U{1F300}', '\U{1F9FF}')
    ensures OutsideRange(CleanTextForSpeech(text), '\U{2600}', '\U{26FF}')
    ensures OutsideRange(CleanTextForSpeech(text), '\U{2700}', '\U{27BF}')
  {
    if text != [] {
      var s4 := DeleteAsides(DeleteNotes(DeleteNotes(ReplaceRuns(text, IsSlash, 3, ""), "（メモ", '）'), "(メモ", ')'));
      var s7 := RemoveEmoji(s4);
      RemoveEmojiOutside(s4);
      OutsideAfterStep7(s7, '\U{1F300}', '\U{1F9FF}');
      OutsideAfterStep7(s7, '\U{2600}', '\U{26FF}');
      OutsideAfterStep7(s7, '\U{2700}', '\U{27BF}');
      var r := Untrimmed(text);
      TrimKeepsOutside(r, '\U{1F300}', '\U{1F9FF}');
      TrimKeepsOutside(r, '\U{2600}', '\U{26FF}');
      TrimKeepsOutside(r, '\U{2700}', '\U{27BF}');
    }
  }

  /** Steps 5 to 7 of the chain. */
  function RemoveEmoji(s4: string): string
  {
    RemoveRange(RemoveRange(RemoveRange(s4, '\U{1F300}', '\U{1F9FF}'), '\U{2600}', '\U{26FF}'), '\U{2700}', '\U{27BF}')
  }

  lemma RemoveEmojiOutside(s4: string)
    ensures OutsideRange(RemoveEmoji(s4), '\U{1F300}', '\U{1F9FF}')
    ensures OutsideRange(RemoveEmoji(s4), '\U{2600}', '\U{26FF}')
    ensures OutsideRange(RemoveEmoji(s4), '\U{2700}', '\U{27BF}')
  {
    var s5 := RemoveRange(s4, '\U{1F300}', '\U{1F9FF}');
    var s6 := RemoveRange(s5, '\U{2600}', '\U{26FF}');
    RemoveRangeKeepsOutside(s5, '\U{2600}', '\U{26FF}', '\U{1F300}', '\U{1F9FF}');
    RemoveRangeKeepsOutside(s6, '\U{2700}', '\U{27BF}', '\U{1F300}', '\U{1F9FF}');
    RemoveRangeKeepsOutside(s6, '\U{2700}', '\U{27BF}', '\U{2600}', '\U{26FF}');
  }

  lemma TrimKeepsOutside(r: string, lo: char, hi: char)
    requires OutsideRange(r, lo, hi)
    ensures OutsideRange(Trim(r), lo, hi)
  {
    TrimIsFactor(r);
    var t := Trim(r);
    forall i | 0 <= i < |t| ensures !(lo <= t[i] <= hi) {
      assert t[i] == r[TrimOffset(r) + i];
    }
  }

  lemma {:induction false} RemoveRangeKeepsOutside(s: string, lo: char, hi: char, lo2: char, hi2: char)
    requires OutsideRange(s, lo2, hi2)
    ensures OutsideRange(RemoveRange(s, lo, hi), lo2, hi2)
    decreases |s|
  {
    if s != [] {
      RemoveRangeKeepsOutside(s[1..], lo, hi, lo2, hi2);
    }
  }

  /** Steps 8 to 13 of the chain, applied to the text after the emoji removal. */
  lemma OutsideAfterStep7(s7: string, lo: char, hi: char)
    requires OutsideRange(s7, lo, hi)
    requires !(lo <= '.' <= hi) && !(lo <= '。' <= hi) && !(lo <= '！' <= hi) && !(lo <= '？' <= hi) && !(lo <= ' ' <= hi)
    ensures OutsideRange(ReplaceRuns(ReplaceRuns(ReplaceRuns(ReplaceRuns(ReplaceRuns(ReplaceRuns(s7,
              IsDot, 3, "..."), IsFullStop, 2, "。"), IsBang, 2, "！"), IsQuestion, 2, "？"), IsNewline, 1, ""), IsJsSpace, 1, " "), lo, hi)
  {
    var s8 := ReplaceRuns(s7, IsDot, 3, "...");
    ReplaceRunsOutside(s7, IsDot, 3, "...", lo, hi);
    var s9 := ReplaceRuns(s8, IsFullStop, 2, "。");
    ReplaceRunsOutside(s8, IsFullStop, 2, "。", lo, hi);
    var s10 := ReplaceRuns(s9, IsBang, 2, "！");
    ReplaceRunsOutside(s9, IsBang, 2, "！", lo, hi);
    var s11 := ReplaceRuns(s10, IsQuestion, 2, "？");
    ReplaceRunsOutside(s10, IsQuestion, 2, "？", lo, hi);
    var s12 := ReplaceRuns(s11, IsNewline, 1, "");
    ReplaceRunsOutside(s11, IsNewline, 1, "", lo, hi);
    ReplaceRunsOutside(s12, IsJsSpace, 1, " ", lo, hi);
  }

  // ---------------------------------------------------------------- parseResponse

  /** A value of the parsed JSON object, as far as the checks below look at it. */
  datatype Field = Undefined | Null | Boolean(b: bool) | Number(n: int) | Text(s: string) | Structure

  /** JavaScript truthiness of a field; arrays and objects are always truthy. */
  predicate Truthy(f: Field)
  {
    match f
    case Undefined => false
    case Null => false
    case Boolean(b) => b
    case Number(n) => n != 0
    case Text(s) => s != []
    case Structure => true
  }

  /** The three properties of the parsed object that parseResponse reads; a missing one is Undefined. */
  datatype RawReply = RawReply(text: Field, favorabilityChange: Field, emotion: Field)

  /** A JavaScript number result: an integer or NaN. */
  datatype Change = Amount(v: int) | NotANumber

  datatype Reply = Reply(text: string, favorabilityChange: Change, emotion: Field)

  const FallbackText: string := "えーっと...何て言ったらいいかな？\U{1F4AD}"

  function Fallback(): Reply
  {
    Reply(FallbackText, Amount(0), Text("neutral"))
  }

  /** `s[i] == '{'` and `s[j] == '}'` with `i < j`. */
  predicate BracePair(s: string, i: int, j: int)
  {
    0 <= i < j < |s| && s[i] == '{' && s[j] == '}'
  }

  /** The last index of `c` in `s`. */
  function FindLast(s: string, c: char): (r: Option<nat>)
    ensures r.Some? ==> r.value < |s| && s[r.value] == c && c !in s[r.value + 1..]
    ensures r.None? ==> c !in s
  {
    if s == [] then None
    else if s[|s| - 1] == c then Some(|s| - 1)
    else
      var r := FindLast(s[..|s| - 1], c);
      assert r.Some? ==> s[r.value + 1..] == s[..|s| - 1][r.value + 1..] + [s[|s| - 1]];
      assert s == s[..|s| - 1] + [s[|s| - 1]];
      r
  }

  /** `s.match(/\{[\s\S]*\}/)`: from the first `{` to the last `}` after it. */
  function JsonSpan(s: string): (r: Option<string>)
    ensures r.Some? ==> |r.value| >= 2 && r.value[0] == '{' && r.value[|r.value| - 1] == '}'
  {
    match FindChar(s, '{')
    case None => None
    case Some(i) =>
      match FindLast(s, '}')
      case None => None
      case Some(j) => if i < j then Some(s[i..j + 1]) else None
  }

  /** There is a span exactly when some `{` precedes some `}`; it then starts at the first `{` and ends at the last `}`. */
  lemma JsonSpanMeaning(s: string)
    ensures JsonSpan(s).Some? <==> exists i, j :: BracePair(s, i, j)
    ensures JsonSpan(s).Some? ==> exists i, j :: BracePair(s, i, j) && JsonSpan(s).value == s[i..j + 1]
                                    && '{' !in s[..i] && '}' !in s[j + 1..]
  {
    var fi := FindChar(s, '{');
    var lj := FindLast(s, '}');
    assert JsonSpan(s).Some? ==> BracePair(s, fi.value, lj.value);
    if exists i, j :: BracePair(s, i, j) {
      var i, j :| BracePair(s, i, j);
      assert s[i] in s;
      assert s[j] in s;
      if fi.value > i {
        assert false;
      }
      if lj.value < j {
        assert false;
      }
      assert BracePair(s, fi.value, lj.value);
    }
  }

  /** `Math.min(10, x)` after JavaScript's number coercion; `numeric` coerces a string. */
  function ToNumber(f: Field, numeric: string -> Option<int>): Change
  {
    match f
    case Null => Amount(0)
    case Boolean(b) => Amount(if b then 1 else 0)
    case Number(n) => Amount(n)
    case Text(s) => if numeric(s).Some? then Amount(numeric(s).value) else NotANumber
    case _ => NotANumber
  }

  /** `Math.max(-10, Math.min(10, x))`; NaN stays NaN. */
  function Clamp(c: Change): (r: Change)
    ensures c.NotANumber? <==> r.NotANumber?
    ensures r.Amount? ==> -10 <= r.v <= 10
    ensures c.Amount? && -10 <= c.v <= 10 ==> r == c
    ensures c.Amount? && c.v > 10 ==> r == Amount(10)
    ensures c.Amount? && c.v < -10 ==> r == Amount(-10)
  {
    match c
    case NotANumber => NotANumber
    case Amount(v) => Amount(if v > 10 then 10 else if v < -10 then -10 else v)
  }

  /** The required properties: a truthy text, a defined change (0 is fine), a truthy emotion. */
  predicate HasRequired(raw: RawReply)
  {
    Truthy(raw.text) && raw.favorabilityChange != Undefined && Truthy(raw.emotion)
  }

  /**
   * parseResponse after `JSON.parse`, which is `decode` (None when it throws). A truthy text
   * that is not a string makes cleanTextForSpeech throw, which also lands in the fallback.
   */
  function ParseResponse(responseText: string, decode: string -> Option<RawReply>, numeric: string -> Option<int>): Reply
  {
    match JsonSpan(responseText)
    case None => Fallback()
    case Some(json) =>
      match decode(json)
      case None => Fallback()
      case Some(raw) =>
        if !HasRequired(raw) || !raw.text.Text? then Fallback()
        else Reply(CleanTextForSpeech(raw.text.s), Clamp(ToNumber(raw.favorabilityChange, numeric)), raw.emotion)
  }

  /** When the answer is not a valid reply, the fallback is returned. */
  lemma ParseResponseFallback(responseText: string, decode: string -> Option<RawReply>, numeric: string -> Option<int>)
    ensures (forall i, j :: !BracePair(responseText, i, j)) ==> ParseResponse(responseText, decode, numeric) == Fallback()
    ensures JsonSpan(responseText).Some? && decode(JsonSpan(responseText).value).Some?
            && !HasRequired(decode(JsonSpan(responseText).value).value)
            ==> ParseResponse(responseText, decode, numeric) == Fallback()
  {
    JsonSpanMeaning(responseText);
  }

  /** An accepted reply keeps its emotion, keeps an in-range change (0 included), clamps the rest to [-10, 10], and cleans its text. */
  lemma ParseResponseAccepted(responseText: string, decode: string -> Option<RawReply>, numeric: string -> Option<int>, raw: RawReply)
    requires JsonSpan(responseText).Some? && decode(JsonSpan(responseText).value) == Some(raw)
    requires HasRequired(raw) && raw.text.Text?
    ensures var r := ParseResponse(responseText, decode, numeric);
            && r.emotion == raw.emotion
            && r.text == CleanTextForSpeech(raw.text.s)
            && (raw.favorabilityChange.Number? && -10 <= raw.favorabilityChange.n <= 10 ==> r.favorabilityChange == Amount(raw.favorabilityChange.n))
            && (raw.favorabilityChange.Number? ==> r.favorabilityChange.Amount?)
  {
  }

  /** Every change a reply carries lies in [-10, 10], and every reply's text is speakable. */
  lemma ParseResponseBounds(responseText: string, decode: string -> Option<RawReply>, numeric: string -> Option<int>)
    ensures var r := ParseResponse(responseText, decode, numeric);
            (r.favorabilityChange.Amount? ==> -10 <= r.favorabilityChange.v <= 10) && Speakable(r.text)
  {
    FallbackSpeakable();
    var r := ParseResponse(responseText, decode, numeric);
    if r != Fallback() {
      var raw := decode(JsonSpan(responseText).value).value;
      CleanTextIsSpeakable(raw.text.s);
    }
  }

  lemma FallbackSpeakable()
    ensures Speakable(FallbackText)
  {
    var t := FallbackText;
    assert forall i :: 0 <= i < |t| ==> t[i] == '.' || t[i] == '？' || t[i] == '\U{1F4AD}' || '\U{3041}' <= t[i] <= '\U{9FFF}';
  }
}
