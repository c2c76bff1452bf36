/**
 * The JavaScript string primitives the core relies on, stated over `seq<char>`:
 * the white-space class shared by `String.prototype.trim` and the regular
 * expression `\s`, `trim`, `split` on one character, `join`, ASCII
 * `toLowerCase`, `replace(/\s+/g, ' ')`, `split(/\s+/)` and the decimal
 * rendering of a number inside a template literal.
 */
module JsString {

  /** ECMAScript WhiteSpace and LineTerminator code points (what `trim` removes and `\s` matches). */
  predicate IsSpace(c: char)
  {
    var n := c as int;
    n == 0x09 || n == 0x0A || n == 0x0B || n == 0x0C || n == 0x0D || n == 0x20
    || n == 0xA0 || n == 0x1680 || (0x2000 <= n <= 0x200A) || n == 0x2028 || n == 0x2029
    || n == 0x202F || n == 0x205F || n == 0x3000 || n == 0xFEFF
  }

  /** True when every character of `s` is white space (so `s.trim()` is empty and falsy). */
  predicate IsBlank(s: string)
  {
    forall i | 0 <= i < |s| :: IsSpace(s[i])
  }

  /** No leading and no trailing white space. */
  predicate IsTrimmed(s: string)
  {
    s == [] || (!IsSpace(s[0]) && !IsSpace(s[|s| - 1]))
  }

  /** The length of the maximal white-space prefix of `s`. */
  function LeadingSpaces(s: string): (n: nat)
    ensures n <= |s|
    ensures forall i | 0 <= i < n :: IsSpace(s[i])
    ensures n < |s| ==> !IsSpace(s[n])
  {
    if s != [] && IsSpace(s[0]) then 1 + LeadingSpaces(s[1..]) else 0
  }

  /** The white-space prefix is the only one followed by a non-space character or the end. */
  lemma LeadingSpacesUnique(s: string, n: nat)
    requires n <= |s|
    requires forall i | 0 <= i < n :: IsSpace(s[i])
    requires n < |s| ==> !IsSpace(s[n])
    ensures LeadingSpaces(s) == n
  {
  }

  /** The length of the maximal white-space suffix of `s`. */
  function TrailingSpaces(s: string): (n: nat)
    ensures n <= |s|
    ensures forall i | |s| - n <= i < |s| :: IsSpace(s[i])
    ensures n < |s| ==> !IsSpace(s[|s| - 1 - n])
  {
    if s != [] && IsSpace(s[|s| - 1]) then 1 + TrailingSpaces(s[..|s| - 1]) else 0
  }

  /** `s.trim()`: the slice of `s` left after removing white space at both ends. */
  function Trim(s: string): (r: string)
    ensures IsTrimmed(r)
    ensures r == [] <==> IsBlank(s)
    ensures LeadingSpaces(s) + |r| <= |s| && r == s[LeadingSpaces(s)..LeadingSpaces(s) + |r|]
    ensures forall i | 0 <= i < LeadingSpaces(s) || LeadingSpaces(s) + |r| <= i < |s| :: IsSpace(s[i])
  {
    var lead := LeadingSpaces(s);
    if lead == |s| then []
    else
      var trail := TrailingSpaces(s);
      assert !IsSpace(s[lead]);
      assert lead < |s| - trail;
      s[lead..|s| - trail]
  }

  lemma TrimOfTrimmed(s: string)
    requires IsTrimmed(s)
    ensures Trim(s) == s
  {
    assert LeadingSpaces(s) == 0;
    assert TrailingSpaces(s) == 0;
  }

  /** ASCII `toLowerCase` of one character; every other character is left unchanged. */
  function LowerChar(c: char): char
  {
    if 'A' <= c <= 'Z' then (c as int + 32) as char else c
  }

  /** `s.toLowerCase()`, restricted to the ASCII letters. */
  function ToLower(s: string): (r: string)
    ensures |r| == |s|
    ensures forall i | 0 <= i < |s| :: r[i] == LowerChar(s[i])
  {
    seq(|s|, i requires 0 <= i < |s| => LowerChar(s[i]))
  }

  /** Lower-casing a character is idempotent and does not change whether it is white space. */
  lemma LowerCharFacts(c: char)
    ensures LowerChar(LowerChar(c)) == LowerChar(c)
    ensures IsSpace(LowerChar(c)) <==> IsSpace(c)
  {
  }

  /** Lower-casing keeps a trimmed string trimmed, and lower-casing twice is lower-casing once. */
  lemma ToLowerFacts(s: string)
    ensures IsTrimmed(s) ==> IsTrimmed(ToLower(s))
    ensures ToLower(ToLower(s)) == ToLower(s)
  {
    if s != [] {
      LowerCharFacts(s[0]);
      LowerCharFacts(s[|s| - 1]);
    }
    forall i | 0 <= i < |s|
      ensures ToLower(ToLower(s))[i] == ToLower(s)[i]
    {
      LowerCharFacts(s[i]);
    }
  }

  /** `parts.join(sep)`. */
  function Join(parts: seq<string>, sep: string): string
  {
    if |parts| == 0 then ""
    else if |parts| == 1 then parts[0]
    else parts[0] + sep + Join(parts[1..], sep)
  }

  /** Joining a first piece before at least one more puts the separator right after it. */
  lemma JoinCons(part: string, rest: seq<string>, sep: string)
    requires |rest| >= 1
    ensures Join([part] + rest, sep) == part + sep + Join(rest, sep)
  {
    assert ([part] + rest)[1..] == rest;
  }

  /** `(cur + s).split(sep)` where `cur` is the part of the first piece already read. */
  function SplitFrom(s: string, sep: char, cur: string): (r: seq<string>)
    requires sep !in cur
    ensures |r| >= 1
    ensures forall k | 0 <= k < |r| :: sep !in r[k]
    ensures Join(r, [sep]) == cur + s
    decreases |s|
  {
    if s == [] then [cur]
    else if s[0] == sep then
      var rest := SplitFrom(s[1..], sep, "");
      assert cur + s == cur + [sep] + s[1..];
      [cur] + rest
    else
      assert cur + s == (cur + [s[0]]) + s[1..];
      SplitFrom(s[1..], sep, cur + [s[0]])
  }

  /**
   * `s.split(sep)`: at least one piece, no piece holds the separator, and
   * joining the pieces with the separator gives back `s`.
   */
  function Split(s: string, sep: char): (r: seq<string>)
    ensures |r| >= 1
    ensures forall k | 0 <= k < |r| :: sep !in r[k]
    ensures Join(r, [sep]) == s
  {
    SplitFrom(s, sep, "")
  }

  lemma {:induction false} SplitFromPiece(piece: string, rest: string, sep: char, cur: string)
    requires sep !in cur && sep !in piece
    ensures SplitFrom(piece + rest, sep, cur) == SplitFrom(rest, sep, cur + piece)
    decreases |piece|
  {
    if piece != [] {
      assert (piece + rest)[0] == piece[0];
      assert (piece + rest)[1..] == piece[1..] + rest;
      assert cur + piece == (cur + [piece[0]]) + piece[1..];
      SplitFromPiece(piece[1..], rest, sep, cur + [piece[0]]);
    } else {
      assert piece + rest == rest;
      assert cur + piece == cur;
    }
  }

  /** Splitting undoes joining, for pieces free of the separator. */
  lemma {:induction false} SplitJoin(parts: seq<string>, sep: char)
    requires |parts| >= 1
    requires forall k | 0 <= k < |parts| :: sep !in parts[k]
    ensures Split(Join(parts, [sep]), sep) == parts
    decreases |parts|
  {
    if |parts| == 1 {
      SplitFromPiece(parts[0], "", sep, "");
      assert parts[0] + "" == parts[0];
      assert "" + parts[0] == parts[0];
    } else {
      var tail := Join(parts[1..], [sep]);
      assert Join(parts, [sep]) == parts[0] + ([sep] + tail);
      SplitFromPiece(parts[0], [sep] + tail, sep, "");
      assert "" + parts[0] == parts[0];
      assert ([sep] + tail)[0] == sep && ([sep] + tail)[1..] == tail;
      SplitJoin(parts[1..], sep);
      assert parts == [parts[0]] + parts[1..];
    }
  }

  /** No white space at all. */
  predicate NoSpace(w: string)
  {
    forall i | 0 <= i < |w| :: !IsSpace(w[i])
  }

  /** `(cur + s).split(/\s+/)`: pieces separated by maximal runs of white space. */
  function SplitSpacesFrom(s: string, cur: string): (r: seq<string>)
    ensures |r| >= 1
    decreases |s|
  {
    if s == [] then [cur]
    else if IsSpace(s[0]) then
      var lead := LeadingSpaces(s);
      assert lead > 0;
      [cur] + SplitSpacesFrom(s[lead..], "")
    else SplitSpacesFrom(s[1..], cur + [s[0]])
  }

  /** `s.split(/\s+/)`. */
  function SplitSpaces(s: string): seq<string>
  {
    SplitSpacesFrom(s, "")
  }

  /** `parts.filter(Boolean)`: the non-empty pieces, in order. */
  function NonEmptyParts(parts: seq<string>): (r: seq<string>)
    ensures |r| <= |parts|
    ensures forall k | 0 <= k < |r| :: r[k] != [] && r[k] in parts
  {
    if parts == [] then []
    else if parts[0] == [] then NonEmptyParts(parts[1..])
    else [parts[0]] + NonEmptyParts(parts[1..])
  }

  /** For a trimmed string with no leading space before `cur` is closed, every piece is non-empty. */
  lemma {:induction false} SplitSpacesFromNonEmpty(s: string, cur: string)
    requires s == [] || !IsSpace(s[|s| - 1])
    requires cur != [] || (s != [] && !IsSpace(s[0]))
    ensures NonEmptyParts(SplitSpacesFrom(s, cur)) == SplitSpacesFrom(s, cur)
    decreases |s|
  {
    if s == [] {
    } else if IsSpace(s[0]) {
      var lead := LeadingSpaces(s);
      assert lead < |s|;
      var rest := s[lead..];
      assert rest[|rest| - 1] == s[|s| - 1];
      SplitSpacesFromNonEmpty(rest, "");
    } else {
      SplitSpacesFromNonEmpty(s[1..], cur + [s[0]]);
    }
  }

  /** `SplitSpacesFrom` reads a word free of white space into the current piece. */
  lemma {:induction false} SplitSpacesFromWord(word: string, rest: string, cur: string)
    requires NoSpace(word)
    ensures SplitSpacesFrom(word + rest, cur) == SplitSpacesFrom(rest, cur + word)
    decreases |word|
  {
    if word != [] {
      assert (word + rest)[0] == word[0];
      assert (word + rest)[1..] == word[1..] + rest;
      assert cur + word == (cur + [word[0]]) + word[1..];
      SplitSpacesFromWord(word[1..], rest, cur + [word[0]]);
    } else {
      assert word + rest == rest;
      assert cur + word == cur;
    }
  }

  /** Splitting on white space undoes joining non-empty words with single spaces. */
  lemma {:induction false} SplitSpacesJoin(words: seq<string>)
    requires |words| >= 1
    requires forall k | 0 <= k < |words| :: words[k] != [] && NoSpace(words[k])
    ensures SplitSpaces(Join(words, " ")) == words
    decreases |words|
  {
    if |words| == 1 {
      SplitSpacesFromWord(words[0], "", "");
      assert words[0] + "" == words[0];
      assert "" + words[0] == words[0];
    } else {
      var tail := Join(words[1..], " ");
      JoinWordsStartsWithWord(words[1..]);
      assert Join(words, " ") == words[0] + (" " + tail);
      SplitSpacesFromWord(words[0], " " + tail, "");
      assert "" + words[0] == words[0];
      var s := " " + tail;
      assert IsSpace(s[0]);
      assert !IsSpace(s[1]);
      assert LeadingSpaces(s) == 1;
      assert s[1..] == tail;
      SplitSpacesJoin(words[1..]);
      assert words == [words[0]] + words[1..];
    }
  }

  /** Words joined by single spaces begin and end with a non-space character. */
  lemma {:induction false} JoinWordsStartsWithWord(words: seq<string>)
    requires |words| >= 1
    requires forall k | 0 <= k < |words| :: words[k] != [] && NoSpace(words[k])
    ensures var j := Join(words, " "); j != [] && !IsSpace(j[0]) && !IsSpace(j[|j| - 1])
    decreases |words|
  {
    if |words| > 1 {
      JoinWordsStartsWithWord(words[1..]);
      var j := Join(words, " ");
      var tail := Join(words[1..], " ");
      assert j == words[0] + " " + tail;
      assert j[0] == words[0][0];
      assert j[|j| - 1] == tail[|tail| - 1];
    }
  }

  /** `s.replace(/\s+/g, ' ')`: every maximal run of white space becomes one space. */
  function CollapseSpaces(s: string): (r: string)
    ensures (r == []) == (s == [])
    ensures forall i | 0 <= i < |r| :: r[i] == ' ' || (r[i] in s && !IsSpace(r[i]))
    ensures forall i | 0 <= i < |r| - 1 :: !(IsSpace(r[i]) && IsSpace(r[i + 1]))
    ensures s != [] ==> (IsSpace(r[0]) <==> IsSpace(s[0]))
    ensures s != [] ==> (IsSpace(r[|r| - 1]) <==> IsSpace(s[|s| - 1]))
    decreases |s|
  {
    if s == [] then []
    else
      var rest := s[1..];
      assert forall c | c in rest :: c in s;
      assert rest != [] ==> rest[|rest| - 1] == s[|s| - 1];
      if IsSpace(s[0]) && rest != [] && IsSpace(rest[0]) then
        // not the last space of its run: dropped
        CollapseSpaces(rest)
      else
        [if IsSpace(s[0]) then ' ' else s[0]] + CollapseSpaces(rest)
  }

  /** A string whose white space is already single spaces is left unchanged by `CollapseSpaces`. */
  lemma {:induction false} CollapseSpacesFixed(s: string)
    requires forall i | 0 <= i < |s| :: IsSpace(s[i]) ==> s[i] == ' '
    requires forall i | 0 <= i < |s| - 1 :: !(IsSpace(s[i]) && IsSpace(s[i + 1]))
    ensures CollapseSpaces(s) == s
    decreases |s|
  {
    if s != [] {
      CollapseSpacesFixed(s[1..]);
      if |s| > 1 {
        assert !(IsSpace(s[0]) && IsSpace(s[1]));
      }
    }
  }

  // ---------------------------------------------------------------------------
  // How trimming, lower-casing, splitting and collapsing relate
  // ---------------------------------------------------------------------------

  /** Trimming removes exactly the white space around a trimmed core. */
  lemma TrimOfPadded(pre: string, core: string, post: string)
    requires IsBlank(pre) && IsBlank(post) && IsTrimmed(core)
    ensures Trim(pre + core + post) == core
  {
    var s := pre + core + post;
    if core == [] {
      assert s == pre + post;
      assert IsBlank(s) by {
        forall i | 0 <= i < |s| ensures IsSpace(s[i]) {
          if i < |pre| { assert s[i] == pre[i]; } else { assert s[i] == post[i - |pre|]; }
        }
      }
    } else {
      forall i | 0 <= i < |pre| ensures IsSpace(s[i]) { assert s[i] == pre[i]; }
      assert s[|pre|] == core[0];
      LeadingSpacesUnique(s, |pre|);
      var r := Trim(s);
      var last := |pre| + |core| - 1;
      assert s[last] == core[|core| - 1];
      assert r != [];
      assert s[|pre| + |r| - 1] == r[|r| - 1];
      assert |r| == |core|;
      assert s[|pre|..|pre| + |core|] == core;
    }
  }

  /** Trimming and lower-casing commute: lower-casing never creates or removes white space. */
  lemma TrimLowerCommute(s: string)
    ensures ToLower(Trim(s)) == Trim(ToLower(s))
  {
    var t := Trim(s);
    var pre, post := TrimDecompose(s);
    LowerConcat(pre, t);
    LowerConcat(pre + t, post);
    LowerBlank(pre);
    LowerBlank(post);
    ToLowerFacts(t);
    TrimOfPadded(ToLower(pre), ToLower(t), ToLower(post));
  }

  /** Every string is its trimmed form with white space around it. */
  lemma TrimDecompose(s: string) returns (pre: string, post: string)
    ensures IsBlank(pre) && IsBlank(post)
    ensures s == pre + Trim(s) + post
  {
    var t := Trim(s);
    var a := LeadingSpaces(s);
    pre, post := s[..a], s[a + |t|..];
    assert s == pre + t + post;
  }

  lemma LowerConcat(a: string, b: string)
    ensures ToLower(a + b) == ToLower(a) + ToLower(b)
  {
  }

  lemma LowerBlank(s: string)
    requires IsBlank(s)
    ensures IsBlank(ToLower(s))
  {
    forall i | 0 <= i < |s| ensures IsSpace(ToLower(s)[i]) { LowerCharFacts(s[i]); }
  }

  /** A run of white space at the front collapses to a single space. */
  lemma {:induction false} CollapseRun(s: string)
    requires s != [] && IsSpace(s[0])
    ensures CollapseSpaces(s) == " " + CollapseSpaces(s[LeadingSpaces(s)..])
    decreases |s|
  {
    var rest := s[1..];
    if rest != [] && IsSpace(rest[0]) {
      CollapseRun(rest);
      assert rest[LeadingSpaces(rest)..] == s[LeadingSpaces(s)..];
    }
  }

  lemma {:induction false} CollapseAsJoinFrom(s: string, cur: string)
    ensures Join(SplitSpacesFrom(s, cur), " ") == cur + CollapseSpaces(s)
    decreases |s|
  {
    if s == [] {
      assert cur + [] == cur;
    } else if IsSpace(s[0]) {
      CollapseAsJoinFrom(s[LeadingSpaces(s)..], "");
      CollapseJoinAtSpace(s, cur);
    } else {
      CollapseAsJoinFrom(s[1..], cur + [s[0]]);
      CollapseJoinAtWord(s, cur);
    }
  }

  lemma CollapseJoinAtSpace(s: string, cur: string)
    requires s != [] && IsSpace(s[0])
    requires Join(SplitSpacesFrom(s[LeadingSpaces(s)..], ""), " ") == "" + CollapseSpaces(s[LeadingSpaces(s)..])
    ensures Join(SplitSpacesFrom(s, cur), " ") == cur + CollapseSpaces(s)
  {
    var tail := s[LeadingSpaces(s)..];
    var rest := SplitSpacesFrom(tail, "");
    assert SplitSpacesFrom(s, cur) == [cur] + rest;
    JoinAfterSpace(cur, rest, CollapseSpaces(tail));
    CollapseRun(s);
  }

  lemma JoinAfterSpace(cur: string, rest: seq<string>, joined: string)
    requires |rest| >= 1 && Join(rest, " ") == "" + joined
    ensures Join([cur] + rest, " ") == cur + (" " + joined)
  {
    JoinCons(cur, rest, " ");
    assert "" + joined == joined;
    AppendAssoc(cur, " ", joined);
  }

  lemma AppendAssoc(a: string, b: string, c: string)
    ensures a + b + c == a + (b + c)
  {
  }

  lemma CollapseJoinAtWord(s: string, cur: string)
    requires s != [] && !IsSpace(s[0])
    requires Join(SplitSpacesFrom(s[1..], cur + [s[0]]), " ") == cur + [s[0]] + CollapseSpaces(s[1..])
    ensures Join(SplitSpacesFrom(s, cur), " ") == cur + CollapseSpaces(s)
  {
    assert SplitSpacesFrom(s, cur) == SplitSpacesFrom(s[1..], cur + [s[0]]);
    assert CollapseSpaces(s) == [s[0]] + CollapseSpaces(s[1..]);
    AppendAssoc(cur, [s[0]], CollapseSpaces(s[1..]));
  }

  /**
   * What `replace(/\s+/g, ' ')` yields: the pieces of `s` between its white-space
   * runs, in order, joined by single spaces.
   */
  lemma CollapseSpacesAsJoin(s: string)
    ensures CollapseSpaces(s) == Join(SplitSpaces(s), " ")
  {
    CollapseAsJoinFrom(s, "");
    assert "" + CollapseSpaces(s) == CollapseSpaces(s);
  }

  /** `s.split(/\s+/).filter(Boolean)`: the words of `s`, in order. */
  function Words(s: string): seq<string>
  {
    NonEmptyParts(SplitSpaces(s))
  }

  lemma {:induction false} SplitSpacesFromNoSpace(s: string, cur: string)
    requires NoSpace(cur)
    ensures forall k | 0 <= k < |SplitSpacesFrom(s, cur)| :: NoSpace(SplitSpacesFrom(s, cur)[k])
    decreases |s|
  {
    if s == [] {
    } else if IsSpace(s[0]) {
      SplitSpacesFromNoSpace(s[LeadingSpaces(s)..], "");
    } else {
      SplitSpacesFromNoSpace(s[1..], cur + [s[0]]);
    }
  }

  /** Every word is non-empty and free of white space. */
  lemma WordsAreWords(s: string)
    ensures forall k | 0 <= k < |Words(s)| :: Words(s)[k] != [] && NoSpace(Words(s)[k])
  {
    SplitSpacesFromNoSpace(s, "");
  }

  lemma {:induction false} NonEmptyPartsDropsEmptyLast(parts: seq<string>)
    ensures NonEmptyParts(parts + [""]) == NonEmptyParts(parts)
    decreases |parts|
  {
    if parts == [] {
      assert [] + [""] == [""];
    } else {
      assert (parts + [""])[1..] == parts[1..] + [""];
      NonEmptyPartsDropsEmptyLast(parts[1..]);
    }
  }

  lemma SplitSpacesFromLeading(pre: string, s: string, cur: string)
    requires pre != [] && IsBlank(pre)
    requires s == [] || !IsSpace(s[0])
    ensures SplitSpacesFrom(pre + s, cur) == [cur] + SplitSpacesFrom(s, "")
  {
    forall i | 0 <= i < |pre| ensures IsSpace((pre + s)[i]) { assert (pre + s)[i] == pre[i]; }
    assert |pre| < |pre + s| ==> (pre + s)[|pre|] == s[0];
    LeadingSpacesUnique(pre + s, |pre|);
    assert (pre + s)[|pre|..] == s;
  }

  lemma {:induction false} SplitSpacesFromTrailing(s: string, post: string, cur: string)
    requires s == [] || !IsSpace(s[|s| - 1])
    requires post != [] && IsBlank(post)
    ensures SplitSpacesFrom(s + post, cur) == SplitSpacesFrom(s, cur) + [""]
    decreases |s|
  {
    if s == [] {
      assert s + post == post;
      LeadingSpacesUnique(post, |post|);
    } else if IsSpace(s[0]) {
      var lead := LeadingSpaces(s);
      assert lead < |s|;
      forall i | 0 <= i < lead ensures IsSpace((s + post)[i]) { assert (s + post)[i] == s[i]; }
      LeadingSpacesUnique(s + post, lead);
      assert (s + post)[lead..] == s[lead..] + post;
      SplitSpacesFromTrailing(s[lead..], post, "");
      assert ([cur] + SplitSpacesFrom(s[lead..], "")) + [""] == [cur] + (SplitSpacesFrom(s[lead..], "") + [""]);
    } else {
      assert (s + post)[1..] == s[1..] + post;
      SplitSpacesFromTrailing(s[1..], post, cur + [s[0]]);
    }
  }

  /** A white-space string has no words. */
  lemma WordsOfBlank(s: string)
    requires IsBlank(s)
    ensures Words(s) == []
  {
    if s != [] {
      SplitSpacesFromTrailing([], s, "");
      assert [] + s == s;
      NonEmptyPartsDropsEmptyLast([""]);
    }
  }

  /** White space around a trimmed core adds no word. */
  lemma WordsIgnorePadding(pre: string, core: string, post: string)
    requires IsBlank(pre) && IsBlank(post) && IsTrimmed(core)
    ensures Words(pre + core + post) == Words(core)
  {
    if core == [] {
      TrimOfPadded(pre, core, post);
      WordsOfBlank(pre + core + post);
    } else {
      var tail := SplitSpacesFrom(core + post, "");
      if post == [] {
        assert core + post == core;
      } else {
        SplitSpacesFromTrailing(core, post, "");
        NonEmptyPartsDropsEmptyLast(SplitSpacesFrom(core, ""));
      }
      assert NonEmptyParts(tail) == Words(core);
      if pre == [] {
        assert pre + core + post == core + post;
      } else {
        assert pre + core + post == pre + (core + post);
        SplitSpacesFromLeading(pre, core + post, "");
        assert ([""] + tail)[1..] == tail;
      }
    }
  }

  /**
   * `s.trim().replace(/\s+/g, ' ')` is `s.split(/\s+/).filter(Boolean).join(' ')`:
   * the words of `s` joined by single spaces.
   */
  lemma CollapseTrimmedAsWords(s: string)
    ensures CollapseSpaces(Trim(s)) == Join(Words(s), " ")
  {
    var t := Trim(s);
    var pre, post := TrimDecompose(s);
    WordsIgnorePadding(pre, t, post);
    CollapseSpacesAsJoin(t);
    if t != [] {
      SplitSpacesFromNonEmpty(t, "");
    }
  }

  /** Joining words with single spaces loses nothing: equal joins come from equal word lists. */
  lemma JoinWordsInjective(w1: seq<string>, w2: seq<string>)
    requires forall k | 0 <= k < |w1| :: w1[k] != [] && NoSpace(w1[k])
    requires forall k | 0 <= k < |w2| :: w2[k] != [] && NoSpace(w2[k])
    requires Join(w1, " ") == Join(w2, " ")
    ensures w1 == w2
  {
    if w1 == [] || w2 == [] {
      if w1 != [] { JoinWordsStartsWithWord(w1); }
      if w2 != [] { JoinWordsStartsWithWord(w2); }
    } else {
      SplitSpacesJoin(w1);
      SplitSpacesJoin(w2);
    }
  }

  /** Each piece lower-cased. */
  function LowerAll(parts: seq<string>): (r: seq<string>)
    ensures |r| == |parts|
    ensures forall k | 0 <= k < |parts| :: r[k] == ToLower(parts[k])
  {
    seq(|parts|, k requires 0 <= k < |parts| => ToLower(parts[k]))
  }

  lemma {:induction false} SplitSpacesFromLower(s: string, cur: string)
    ensures SplitSpacesFrom(ToLower(s), ToLower(cur)) == LowerAll(SplitSpacesFrom(s, cur))
    decreases |s|
  {
    var l := ToLower(s);
    if s == [] {
      assert l == [];
    } else if IsSpace(s[0]) {
      var lead := LeadingSpaces(s);
      forall i | 0 <= i < lead ensures IsSpace(l[i]) { LowerCharFacts(s[i]); }
      if lead < |s| { LowerCharFacts(s[lead]); }
      LeadingSpacesUnique(l, lead);
      assert l[lead..] == ToLower(s[lead..]);
      SplitSpacesFromLower(s[lead..], "");
      assert ToLower("") == "";
      LowerLeading(cur, SplitSpacesFrom(s[lead..], ""));
    } else {
      LowerCharFacts(s[0]);
      assert l[1..] == ToLower(s[1..]);
      assert ToLower(cur) + [l[0]] == ToLower(cur + [s[0]]);
      SplitSpacesFromLower(s[1..], cur + [s[0]]);
    }
  }

  lemma LowerLeading(first: string, rest: seq<string>)
    ensures LowerAll([first] + rest) == [ToLower(first)] + LowerAll(rest)
  {
  }

  lemma {:induction false} NonEmptyPartsLower(parts: seq<string>)
    ensures NonEmptyParts(LowerAll(parts)) == LowerAll(NonEmptyParts(parts))
    decreases |parts|
  {
    if parts != [] {
      assert LowerAll(parts)[1..] == LowerAll(parts[1..]);
      NonEmptyPartsLower(parts[1..]);
      if parts[0] != [] {
        LowerLeading(parts[0], NonEmptyParts(parts[1..]));
      }
    }
  }

  /** The words of a lower-cased string are its words lower-cased. */
  lemma WordsLower(s: string)
    ensures Words(ToLower(s)) == LowerAll(Words(s))
  {
    SplitSpacesFromLower(s, "");
    assert ToLower("") == "";
    NonEmptyPartsLower(SplitSpaces(s));
  }

  /** The decimal digit for `d`. */
  function DigitChar(d: nat): (c: char)
    requires d < 10
    ensures '0' <= c <= '9'
  {
    ('0' as int + d) as char
  }

  /** The value of a string of decimal digits. */
  function DecimalValue(s: string): nat
    requires forall i | 0 <= i < |s| :: '0' <= s[i] <= '9'
  {
    if s == [] then 0 else DecimalValue(s[..|s| - 1]) * 10 + (s[|s| - 1] as int - '0' as int)
  }

  /** How a JavaScript template literal renders a non-negative integer: canonical decimal digits. */
  function NatToString(n: nat): (r: string)
    ensures |r| >= 1
    ensures forall i | 0 <= i < |r| :: '0' <= r[i] <= '9'
    ensures r[0] == '0' ==> n == 0
    decreases n
  {
    if n < 10 then [DigitChar(n)] else NatToString(n / 10) + [DigitChar(n % 10)]
  }

  /** Reading the rendered digits back gives the number. */
  lemma {:induction false} DecimalRoundTrip(n: nat)
    ensures DecimalValue(NatToString(n)) == n
    decreases n
  {
    if n >= 10 {
      DecimalRoundTrip(n / 10);
      var r := NatToString(n);
      assert r[..|r| - 1] == NatToString(n / 10);
    }
  }
}
