/**
 * Three small rules of frontend/script.js: cutting a reply into subtitle chunks, the keyword
 * reaction that picks a video, and the clamp of the affinity bar. Lengths are JavaScript
 * string lengths, that is UTF-16 code units.
 */
module UiHelpers {
  import opened Wrappers
  import opened Strings

  // ---------------------------------------------------------------- subtitle chunks

  predicate IsChunkDelimiter(c: char)
  {
    c == '。' || c == '！' || c == '？' || c == '、'
  }

  /** The index of the first delimiter of `s`, or |s| when there is none. */
  function FirstDelimiter(s: string): (k: nat)
    ensures k <= |s|
    ensures forall i :: 0 <= i < k ==> !IsChunkDelimiter(s[i])
    ensures k < |s| ==> IsChunkDelimiter(s[k])
  {
    if s == [] || IsChunkDelimiter(s[0]) then 0 else 1 + FirstDelimiter(s[1..])
  }

  /**
   * `s.split(/([。！？、])/)`: the text between delimiters at even positions, each delimiter as a
   * one-character piece at the odd position after it.
   */
  function SplitKeep(s: string): seq<string>
    decreases |s|
  {
    var k := FirstDelimiter(s);
    if k == |s| then [s] else [s[..k], [s[k]]] + SplitKeep(s[k + 1..])
  }

  predicate DelimiterFree(p: string)
  {
    forall k :: 0 <= k < |p| ==> !IsChunkDelimiter(p[k])
  }

  predicate IsDelimiterPiece(p: string)
  {
    |p| == 1 && IsChunkDelimiter(p[0])
  }

  /** The shape of the split: delimiter-free text at even positions, a single delimiter at odd ones. */
  predicate Alternates(pieces: seq<string>)
  {
    && |pieces| % 2 == 1
    && forall i :: 0 <= i < |pieces| ==> if i % 2 == 0 then DelimiterFree(pieces[i]) else IsDelimiterPiece(pieces[i])
  }

  /** The pieces alternate between delimiter-free text and single delimiters, text first and last. */
  lemma {:induction false} SplitKeepShape(s: string)
    ensures Alternates(SplitKeep(s))
    decreases |s|
  {
    var k := FirstDelimiter(s);
    if k < |s| {
      SplitKeepShape(s[k + 1..]);
      var rest := SplitKeep(s[k + 1..]);
      var r := [s[..k], [s[k]]] + rest;
      assert SplitKeep(s) == r;
      assert DelimiterFree(r[0]) && IsDelimiterPiece(r[1]);
      forall i | 2 <= i < |r|
        ensures if i % 2 == 0 then DelimiterFree(r[i]) else IsDelimiterPiece(r[i])
      {
        assert r[i] == rest[i - 2] && (i - 2) % 2 == i % 2;
      }
    } else {
      assert DelimiterFree(s);
    }
  }

  lemma {:induction false} ConcatCons(a: string, rest: seq<string>)
    ensures Concat([a] + rest) == a + Concat(rest)
    decreases |rest|
  {
    if rest != [] {
      var front := rest[..|rest| - 1];
      ConcatCons(a, front);
      assert ([a] + rest)[..|rest|] == [a] + front;
    } else {
      assert [a] + rest == [a];
    }
  }

  lemma ConcatPair(a: string, b: string, rest: seq<string>)
    ensures Concat([a, b] + rest) == a + b + Concat(rest)
  {
    ConcatCons(b, rest);
    ConcatCons(a, [b] + rest);
    assert [a, b] + rest == [a] + ([b] + rest);
  }

  lemma ConcatSnoc(parts: seq<string>, i: nat)
    requires i < |parts|
    ensures Concat(parts[..i + 1]) == Concat(parts[..i]) + parts[i]
  {
    assert parts[..i + 1][..i] == parts[..i];
  }

  /** Splitting loses nothing: the pieces concatenate back to the text. */
  lemma {:induction false} SplitKeepConcat(s: string)
    ensures Concat(SplitKeep(s)) == s
    decreases |s|
  {
    var k := FirstDelimiter(s);
    if k < |s| {
      var rest := SplitKeep(s[k + 1..]);
      assert SplitKeep(s) == [s[..k], [s[k]]] + rest;
      SplitKeepConcat(s[k + 1..]);
      ConcatPair(s[..k], [s[k]], rest);
      assert s == s[..k] + [s[k]] + s[k + 1..];
    } else {
      assert Concat([s]) == Concat([]) + s;
    }
  }

  predicate Trimmed(c: string)
  {
    c != [] && !IsJsSpace(c[0]) && !IsJsSpace(c[|c| - 1])
  }

  /** `c` is one piece of the split, trimmed. */
  predicate IsTrimmedPiece(pieces: seq<string>, c: string)
  {
    exists p :: p in pieces && c == Trim(p)
  }

  /** What every chunk pushed so far satisfies. */
  predicate WellCut(chunks: seq<string>, pieces: seq<string>, maxLength: nat)
  {
    forall k :: 0 <= k < |chunks| ==>
      Trimmed(chunks[k]) && (Utf16Length(chunks[k]) <= maxLength || IsTrimmedPiece(pieces, chunks[k]))
  }

  /** Pushing the trimmed current chunk when it has any visible text. */
  function Flush(chunks: seq<string>, current: string): seq<string>
  {
    if Trim(current) != [] then chunks + [Trim(current)] else chunks
  }

  /** A flush keeps the chunks well cut and moves the current chunk's visible text into them. */
  lemma FlushKeeps(chunks: seq<string>, current: string, pieces: seq<string>, maxLength: nat)
    requires WellCut(chunks, pieces, maxLength)
    requires Utf16Length(current) <= maxLength || current in pieces
    ensures WellCut(Flush(chunks, current), pieces, maxLength)
    ensures Visible(Flush(chunks, current)) == Visible(chunks) + NonSpace(current)
  {
    FlushWellCut(chunks, current, pieces, maxLength);
    FlushVisible(chunks, current);
  }

  lemma FlushWellCut(chunks: seq<string>, current: string, pieces: seq<string>, maxLength: nat)
    requires WellCut(chunks, pieces, maxLength)
    requires Utf16Length(current) <= maxLength || current in pieces
    ensures WellCut(Flush(chunks, current), pieces, maxLength)
  {
    var t := Trim(current);
    if t != [] {
      assert Trimmed(t);
      if Utf16Length(current) <= maxLength {
        TrimUtf16Length(current);
      } else {
        assert current in pieces && t == Trim(current);
      }
      var r := chunks + [t];
      forall k | 0 <= k < |r|
        ensures Trimmed(r[k]) && (Utf16Length(r[k]) <= maxLength || IsTrimmedPiece(pieces, r[k]))
      {
        if k < |chunks| {
          assert r[k] == chunks[k];
        }
      }
    }
  }

  lemma FlushVisible(chunks: seq<string>, current: string)
    ensures Visible(Flush(chunks, current)) == Visible(chunks) + NonSpace(current)
  {
    var t := Trim(current);
    NonSpaceTrim(current);
    if t != [] {
      assert (chunks + [t])[..|chunks|] == chunks;
      assert Concat(chunks + [t]) == Concat(chunks) + t;
      NonSpaceAppend(Concat(chunks), t);
    } else {
      assert NonSpace(t) == [];
    }
  }

  /** `chunks.filter(chunk => chunk.length > 0)`. */
  function KeepNonEmpty(chunks: seq<string>): (r: seq<string>)
    ensures forall c :: c in r ==> c in chunks && c != []
    ensures (forall k :: 0 <= k < |chunks| ==> chunks[k] != []) ==> r == chunks
  {
    if chunks == [] then []
    else KeepNonEmpty(chunks[..|chunks| - 1]) + (if chunks[|chunks| - 1] != [] then [chunks[|chunks| - 1]] else [])
  }

  /** The non-whitespace text of a list of chunks. */
  function Visible(chunks: seq<string>): string
  {
    NonSpace(Concat(chunks))
  }

  /**
   * splitTextIntoChunks: a short text is returned whole; a long one becomes trimmed, non-empty
   * chunks that each fit in `maxLength` unless the chunk is one piece on
   * its own, and no visible character is lost, added or reordered. The source's default for
   * `maxLength` is 40; its callers also pass 30 and 50.
   */
  method SplitTextIntoChunks(text: string, maxLength: nat) returns (chunks: seq<string>)
    ensures Utf16Length(text) <= maxLength ==> chunks == [text]
    ensures Utf16Length(text) > maxLength ==> forall k :: 0 <= k < |chunks| ==> Trimmed(chunks[k])
    ensures Utf16Length(text) > maxLength ==>
              forall k :: 0 <= k < |chunks| ==> Utf16Length(chunks[k]) <= maxLength || IsTrimmedPiece(SplitKeep(text), chunks[k])
    ensures Visible(chunks) == NonSpace(text)
  {
    if Utf16Length(text) <= maxLength {
      assert Concat([text]) == Concat([]) + text by {
        assert [text][..0] == [];
      }
      assert [] + text == text;
      return [text];
    }
    var words := SplitKeep(text);
    chunks := PackPieces(words, maxLength);
    chunks := KeepNonEmpty(chunks);
    SplitKeepConcat(text);
  }

  /** The loop of splitTextIntoChunks: greedily packs consecutive pieces while they fit. */
  method PackPieces(words: seq<string>, maxLength: nat) returns (chunks: seq<string>)
    ensures WellCut(chunks, words, maxLength)
    ensures Visible(chunks) == NonSpace(Concat(words))
  {
    chunks := [];
    var currentChunk := "";
    for i := 0 to |words|
      invariant WellCut(chunks, words, maxLength)
      invariant Utf16Length(currentChunk) <= maxLength || currentChunk in words
      invariant Visible(chunks) + NonSpace(currentChunk) == NonSpace(Concat(words[..i]))
    {
      ConcatSnoc(words, i);
      NonSpaceAppend(Concat(words[..i]), words[i]);
      chunks, currentChunk := PackStep(chunks, currentChunk, words[i], words, maxLength);
    }
    FlushKeeps(chunks, currentChunk, words, maxLength);
    if Trim(currentChunk) != [] {
      chunks := chunks + [Trim(currentChunk)];
    }
    assert words[..|words|] == words;
  }

  /**
   * One iteration of that loop: the piece joins the current chunk when both fit together;
   * otherwise the current chunk is flushed and the piece starts the next one.
   */
  method PackStep(chunks: seq<string>, current: string, word: string, words: seq<string>, maxLength: nat)
      returns (chunks': seq<string>, current': string)
    requires word in words
    requires WellCut(chunks, words, maxLength)
    requires Utf16Length(current) <= maxLength || current in words
    ensures WellCut(chunks', words, maxLength)
    ensures Utf16Length(current') <= maxLength || current' in words
    ensures Visible(chunks') + NonSpace(current') == Visible(chunks) + NonSpace(current) + NonSpace(word)
  {
    if Utf16Length(current) + Utf16Length(word) <= maxLength {
      NonSpaceAppend(current, word);
      Utf16LengthAppend(current, word);
      chunks', current' := chunks, current + word;
      assert NonSpace(current') == NonSpace(current) + NonSpace(word);
    } else {
      FlushKeeps(chunks, current, words, maxLength);
      chunks', current' := Flush(chunks, current), word;
      assert Visible(chunks') == Visible(chunks) + NonSpace(current);
    }
  }

  // ---------------------------------------------------------------- the keyword reaction

  const PositiveWords: seq<string> := ["嬉しい", "楽しい", "好き", "素敵", "こんにちは", "可愛い", "かわいい", "綺麗", "きれい", "素晴らしい", "ありがとう"]
  const NegativeWords: seq<string> := ["悲しい", "怒る", "嫌い", "辛い", "つらい", "むかつく", "最悪"]

  datatype Reaction = PositiveReaction | NegativeReaction | NeutralReaction

  /** The classification part of analyzeAndReact. */
  function ReactionOf(text: string): Reaction
  {
    if ContainsAny(text, PositiveWords) then PositiveReaction
    else if ContainsAny(text, NegativeWords) then NegativeReaction
    else NeutralReaction
  }

  /** Only a positive or negative reaction switches the video. */
  predicate SwitchesVideo(r: Reaction)
  {
    r != NeutralReaction
  }

  /**
   * Positive wins whenever a positive word occurs, even next to a negative one; negative needs a
   * negative word and no positive one; otherwise nothing is switched.
   */
  lemma ReactionMeaning(text: string)
    ensures ReactionOf(text) == PositiveReaction <==> exists w :: w in PositiveWords && Contains(text, w)
    ensures ReactionOf(text) == NegativeReaction <==>
              (forall w :: w in PositiveWords ==> !Contains(text, w)) && exists w :: w in NegativeWords && Contains(text, w)
    ensures !SwitchesVideo(ReactionOf(text)) <==> !ContainsAny(text, PositiveWords) && !ContainsAny(text, NegativeWords)
  {
  }

  /** A message that opens with 好き reacts positively whatever follows, even a negative word. */
  lemma OpeningWithSukiIsPositive(rest: string)
    ensures ReactionOf("好き" + rest) == PositiveReaction
  {
    var text := "好き" + rest;
    assert IsPrefix("好き", text) by {
      assert text[..2] == "好き";
    }
    assert Contains(text, "好き");
    assert "好き" in PositiveWords;
  }

  // ---------------------------------------------------------------- the affinity bar

  const DefaultWidth: int := 65

  /**
   * The new width in percent: `parseFloat(width) || 65` as the base (`None` for a width that does
   * not parse), plus the change, clamped to [0, 100].
   */
  function NewWidth(current: Option<int>, change: int): (w: int)
    ensures 0 <= w <= 100
  {
    var base := if current.Some? && current.value != 0 then current.value else DefaultWidth;
    var moved := base + change;
    if moved > 100 then 100 else if moved < 0 then 0 else moved
  }

  /** The bar moves by exactly the change while it stays inside [0, 100], stops at the ends, and reads 0 and an unparsable width as 65. */
  lemma NewWidthMeaning(current: Option<int>, change: int)
    ensures var base := if current.Some? && current.value != 0 then current.value else DefaultWidth;
            && (0 <= base + change <= 100 ==> NewWidth(current, change) == base + change)
            && (base + change > 100 ==> NewWidth(current, change) == 100)
            && (base + change < 0 ==> NewWidth(current, change) == 0)
    ensures NewWidth(Some(0), change) == NewWidth(None, change) == (if 65 + change > 100 then 100 else if 65 + change < 0 then 0 else 65 + change)
  {
  }

  /** A larger change never gives a smaller width. */
  lemma NewWidthMonotone(current: Option<int>, c1: int, c2: int)
    requires c1 <= c2
    ensures NewWidth(current, c1) <= NewWidth(current, c2)
  {
  }
}
