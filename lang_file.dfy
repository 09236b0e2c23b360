/** Minecraft `.lang` translation files: `key=value` lines, blank lines and `#` or `//`
    comments. Parsing a file into a key/value table, resolving a translation key with `%0`,
    `%1`, ... placeholders, and the line edit that writes one key's value back. */
module LangFiles {
  import opened Wrappers

  /** The parsed file: a plain object from key to value. */
  type LangData = map<string, string>

  // ---------------------------------------------------------------------------------------
  // String primitives with JavaScript's meaning
  // ---------------------------------------------------------------------------------------

  /** The characters `String.prototype.trim` strips: the ECMAScript white space and line
      terminator characters. */
  predicate IsWhitespace(c: char) {
    var n := c as int;
    || n == 0x09 || n == 0x0A || n == 0x0B || n == 0x0C || n == 0x0D || n == 0x20
    || n == 0xA0 || n == 0x1680 || (0x2000 <= n <= 0x200A) || n == 0x2028 || n == 0x2029
    || n == 0x202F || n == 0x205F || n == 0x3000 || n == 0xFEFF
  }

  /** The index of the first non-white-space character, or |s| when there is none. */
  function TrimStartIndex(s: string): (i: nat)
    ensures i <= |s|
    ensures forall k :: 0 <= k < i ==> IsWhitespace(s[k])
    ensures i < |s| ==> !IsWhitespace(s[i])
  {
    if s == [] || !IsWhitespace(s[0]) then 0 else 1 + TrimStartIndex(s[1..])
  }

  /** One past the index of the last non-white-space character, or 0 when there is none. */
  function TrimEndIndex(s: string): (j: nat)
    ensures j <= |s|
    ensures forall k :: j <= k < |s| ==> IsWhitespace(s[k])
    ensures j > 0 ==> !IsWhitespace(s[j - 1])
  {
    if s == [] || !IsWhitespace(s[|s| - 1]) then |s| else TrimEndIndex(s[..|s| - 1])
  }

  /** `s.trim()`: the part of `s` between its leading and its trailing white space. */
  function Trim(s: string): (t: string)
    ensures |t| <= |s|
    ensures t == [] || (!IsWhitespace(t[0]) && !IsWhitespace(t[|t| - 1]))
  {
    var i := TrimStartIndex(s);
    var j := TrimEndIndex(s);
    if j <= i then [] else s[i..j]
  }

  /** Trimming removes white space only, and only at the ends: the trimmed text sits in `s`
      after a run of white space and before another. */
  lemma TrimSlice(s: string)
    ensures var i := TrimStartIndex(s);
            && i + |Trim(s)| <= |s|
            && Trim(s) == s[i..i + |Trim(s)|]
            && (forall k :: i + |Trim(s)| <= k < |s| ==> IsWhitespace(s[k]))
  {
  }

  /** A string with no white space at either end is its own trim. */
  lemma TrimOfTrimmed(s: string)
    requires s == [] || (!IsWhitespace(s[0]) && !IsWhitespace(s[|s| - 1]))
    ensures Trim(s) == s
  {
    if s != [] {
      assert TrimStartIndex(s) == 0;
      var j := TrimEndIndex(s);
      assert j == |s|;
      assert s[0..|s|] == s;
    }
  }

  /** `s.startsWith(prefix)`. */
  predicate StartsWith(s: string, prefix: string) {
    |prefix| <= |s| && s[..|prefix|] == prefix
  }

  /** `s.indexOf(c)`: the first index holding `c`, or -1. */
  function IndexOf(s: string, c: char): (i: int)
    ensures -1 <= i < |s|
    ensures i == -1 <==> c !in s
    ensures i >= 0 ==> s[i] == c && forall k :: 0 <= k < i ==> s[k] != c
  {
    if s == [] then -1
    else if s[0] == c then 0
    else
      var rest := IndexOf(s[1..], c);
      if rest == -1 then -1 else rest + 1
  }

  /** `s.split(sep)` for a one-character separator: the pieces between separators, in order;
      there is always one more piece than there are separators. */
  function Split(s: string, sep: char): (pieces: seq<string>)
    ensures |pieces| >= 1
    ensures forall i :: 0 <= i < |pieces| ==> sep !in pieces[i]
  {
    if s == [] then [[]]
    else
      var rest := Split(s[1..], sep);
      if s[0] == sep then [[]] + rest
      else [[s[0]] + rest[0]] + rest[1..]
  }

  /** `pieces.join(sep)`. */
  function Join(pieces: seq<string>, sep: char): (s: string)
    ensures pieces == [] ==> s == []
  {
    if pieces == [] then []
    else if |pieces| == 1 then pieces[0]
    else pieces[0] + [sep] + Join(pieces[1..], sep)
  }

  /** Joining the pieces of a split gives back the text. */
  lemma {:induction false} JoinSplit(s: string, sep: char)
    ensures Join(Split(s, sep), sep) == s
  {
    if s != [] {
      var rest := Split(s[1..], sep);
      JoinSplit(s[1..], sep);
      if s[0] == sep {
        assert Split(s, sep) == [[]] + rest;
        assert ([[]] + rest)[1..] == rest;
      } else {
        var pieces := Split(s, sep);
        assert pieces == [[s[0]] + rest[0]] + rest[1..];
        if |rest| == 1 {
          assert s == [s[0]] + s[1..];
        } else {
          assert pieces[1..] == rest[1..];
          assert Join(rest, sep) == rest[0] + [sep] + Join(rest[1..], sep);
          assert s == [s[0]] + s[1..];
        }
      }
    }
  }

  /** Splitting a join of separator-free pieces gives back the pieces. */
  lemma {:induction false} SplitJoin(pieces: seq<string>, sep: char)
    requires |pieces| >= 1
    requires forall i :: 0 <= i < |pieces| ==> sep !in pieces[i]
    ensures Split(Join(pieces, sep), sep) == pieces
  {
    if |pieces| == 1 {
      SplitWithoutSeparator(pieces[0], sep);
    } else {
      SplitJoin(pieces[1..], sep);
      SplitPrefix(pieces[0], Join(pieces[1..], sep), sep);
      assert [pieces[0]] + pieces[1..] == pieces;
    }
  }

  /** A text with no separator splits into itself. */
  lemma {:induction false} SplitWithoutSeparator(s: string, sep: char)
    requires sep !in s
    ensures Split(s, sep) == [s]
  {
    if s != [] {
      SplitWithoutSeparator(s[1..], sep);
      assert [s[0]] + s[1..] == s;
    }
  }

  /** A separator-free head before a separator becomes the first piece. */
  lemma {:induction false} SplitPrefix(head: string, tail: string, sep: char)
    requires sep !in head
    ensures Split(head + [sep] + tail, sep) == [head] + Split(tail, sep)
  {
    if head == [] {
      assert [] + [sep] + tail == [sep] + tail;
      assert ([sep] + tail)[1..] == tail;
    } else {
      var s := head + [sep] + tail;
      assert s[0] == head[0];
      assert s[1..] == head[1..] + [sep] + tail;
      SplitPrefix(head[1..], tail, sep);
      assert [head[0]] + head[1..] == head;
    }
  }

  // ---------------------------------------------------------------------------------------
  // parseLangFile
  // ---------------------------------------------------------------------------------------

  /** What one line contributes: nothing for a blank or comment line or a line whose first
      '=' is missing or leading; otherwise the trimmed text before the first '=' as the key
      and the trimmed text after it as the value. A key is never empty and holds no '='. */
  function ParsedLine(line: string): (r: Option<(string, string)>)
    ensures r.Some? ==> r.value.0 != [] && '=' !in r.value.0
  {
    var trimmedLine := Trim(line);
    if trimmedLine == [] || StartsWith(trimmedLine, "#") || StartsWith(trimmedLine, "//") then None
    else
      var equalIndex := IndexOf(trimmedLine, '=');
      if equalIndex > 0 then
        var before := trimmedLine[..equalIndex];
        KeyOfLine(before);
        Some((Trim(before), Trim(trimmedLine[equalIndex + 1..])))
      else None
  }

  /** The text before a line's first '=' trims to a non-empty key without '=' when it starts
      with a visible character. */
  lemma KeyOfLine(before: string)
    requires before != [] && !IsWhitespace(before[0]) && '=' !in before
    ensures Trim(before) != [] && '=' !in Trim(before)
  {
    TrimSlice(before);
    assert TrimStartIndex(before) == 0;
    assert TrimEndIndex(before) > 0;
    assert forall c :: c in Trim(before) ==> c in before;
  }

  /** Blank lines and comment lines contribute nothing. */
  lemma ParsedLineSkips(line: string)
    requires var t := Trim(line); t == [] || StartsWith(t, "#") || StartsWith(t, "//")
    ensures ParsedLine(line).None?
  {
  }

  /** A line whose trimmed text has no '=' after its first character contributes nothing. */
  lemma ParsedLineNeedsEquals(line: string)
    requires IndexOf(Trim(line), '=') <= 0
    ensures ParsedLine(line).None?
  {
  }

  /** What each line contributes, line by line. */
  function ParsedLines(lines: seq<string>): (entries: seq<Option<(string, string)>>)
    ensures |entries| == |lines|
    ensures forall i :: 0 <= i < |lines| ==> entries[i] == ParsedLine(lines[i])
  {
    seq(|lines|, i requires 0 <= i < |lines| => ParsedLine(lines[i]))
  }

  /** The table the parse loop has built after the given contributions: each one sets its
      key, so a later one for a key overrides an earlier one. */
  function Collect(entries: seq<Option<(string, string)>>): LangData {
    if entries == [] then map[]
    else
      var before := Collect(entries[..|entries| - 1]);
      match entries[|entries| - 1]
      case Some(kv) => before[kv.0 := kv.1]
      case None => before
  }

  /** `parseLangFile`: splits the content into lines and runs the parse loop over them. */
  method ParseLangFile(fileContent: string) returns (translations: LangData)
    ensures translations == Collect(ParsedLines(Split(fileContent, '\n')))
  {
    translations := map[];
    var lines := Split(fileContent, '\n');
    ghost var entries := ParsedLines(lines);
    for i := 0 to |lines|
      invariant translations == Collect(entries[..i])
    {
      assert entries[..i + 1][..i] == entries[..i];
      var parsed := ParsedLine(lines[i]);
      if parsed.Some? {
        translations := translations[parsed.value.0 := parsed.value.1];
      }
    }
    assert entries[..|lines|] == entries;
  }

  /** A key is in the table exactly when some contribution sets it. */
  lemma {:induction false} CollectKeys(entries: seq<Option<(string, string)>>, key: string)
    ensures key in Collect(entries) <==>
              exists i :: 0 <= i < |entries| && entries[i].Some? && entries[i].value.0 == key
  {
    if entries != [] {
      var prefix := entries[..|entries| - 1];
      CollectKeys(prefix, key);
      if key in Collect(entries) && !(entries[|entries| - 1].Some? && entries[|entries| - 1].value.0 == key) {
        var i :| 0 <= i < |prefix| && prefix[i].Some? && prefix[i].value.0 == key;
        assert entries[i] == prefix[i];
      }
      if exists i :: 0 <= i < |entries| && entries[i].Some? && entries[i].value.0 == key {
        var i :| 0 <= i < |entries| && entries[i].Some? && entries[i].value.0 == key;
        if i < |prefix| {
          assert prefix[i] == entries[i];
        }
      }
    }
  }

  /** The value kept for a key is the one from the last contribution that sets the key. */
  lemma {:induction false} CollectLastWins(entries: seq<Option<(string, string)>>, i: nat)
    requires i < |entries| && entries[i].Some?
    requires forall j :: i < j < |entries| && entries[j].Some? ==> entries[j].value.0 != entries[i].value.0
    ensures entries[i].value.0 in Collect(entries)
    ensures Collect(entries)[entries[i].value.0] == entries[i].value.1
  {
    if i < |entries| - 1 {
      var prefix := entries[..|entries| - 1];
      assert prefix[i] == entries[i];
      assert forall j :: i < j < |prefix| ==> prefix[j] == entries[j];
      CollectLastWins(prefix, i);
    }
  }

  /** Every key of a parsed table is non-empty and holds no '='. */
  lemma {:induction false} CollectKeysWellFormed(lines: seq<string>)
    ensures forall k :: k in Collect(ParsedLines(lines)) ==> k != [] && '=' !in k
  {
    var entries := ParsedLines(lines);
    forall k | k in Collect(entries)
      ensures k != [] && '=' !in k
    {
      CollectKeys(entries, k);
      var i :| 0 <= i < |entries| && entries[i].Some? && entries[i].value.0 == k;
      assert entries[i] == ParsedLine(lines[i]);
    }
  }

  // ---------------------------------------------------------------------------------------
  // resolveTranslation
  // ---------------------------------------------------------------------------------------

  /** The decimal digits of `n`, as template literals print a number. */
  function DecimalString(n: nat): (s: string)
    ensures s != [] && forall k :: 0 <= k < |s| ==> '0' <= s[k] <= '9'
    ensures DigitsValue(s) == n
  {
    var last := ['0' + ((n % 10) as char)];
    if n < 10 then last else DecimalString(n / 10) + last
  }

  /** The number a string of decimal digits denotes. */
  function DigitsValue(s: string): nat
    requires forall k :: 0 <= k < |s| ==> '0' <= s[k] <= '9'
  {
    if s == [] then 0 else 10 * DigitsValue(s[..|s| - 1]) + (s[|s| - 1] - '0') as nat
  }

  /** The placeholder for the value at `index`: `%` and the index in decimal. */
  function Placeholder(index: nat): (p: string)
    ensures |p| >= 2 && p[0] == '%'
  {
    "%" + DecimalString(index)
  }

  /** Whether `p` occurs in `s` at position `i`. */
  predicate OccursAt(s: string, p: string, i: nat) {
    i + |p| <= |s| && s[i..i + |p|] == p
  }

  /** A global, literal `replace`: scanning left to right, each occurrence of `pattern` that
      does not overlap an earlier replaced one becomes `replacement`. */
  function ReplaceAll(s: string, pattern: string, replacement: string): string
    requires pattern != []
  {
    ReplaceFrom(s, pattern, replacement, 0)
  }

  /** The scan of `ReplaceAll` from position `k` of `s` on. */
  function ReplaceFrom(s: string, pattern: string, replacement: string, k: nat): string
    requires pattern != [] && k <= |s|
    decreases |s| - k
  {
    if k == |s| then []
    else if OccursAt(s, pattern, k) then replacement + ReplaceFrom(s, pattern, replacement, k + |pattern|)
    else [s[k]] + ReplaceFrom(s, pattern, replacement, k + 1)
  }

  /** From a position after which the pattern does not occur, the text is copied. */
  lemma {:induction false} ReplaceFromAbsent(s: string, pattern: string, replacement: string, k: nat)
    requires pattern != [] && k <= |s|
    requires forall j :: k <= j < |s| ==> !OccursAt(s, pattern, j)
    ensures ReplaceFrom(s, pattern, replacement, k) == s[k..]
    decreases |s| - k
  {
    if k < |s| {
      ReplaceFromAbsent(s, pattern, replacement, k + 1);
      assert [s[k]] + s[k + 1..] == s[k..];
    }
  }

  /** A text in which the pattern does not occur is left as it is. */
  lemma ReplaceAllAbsent(s: string, pattern: string, replacement: string)
    requires pattern != []
    requires forall i :: 0 <= i <= |s| ==> !OccursAt(s, pattern, i)
    ensures ReplaceAll(s, pattern, replacement) == s
  {
    ReplaceFromAbsent(s, pattern, replacement, 0);
  }

  /** Scanning from `k`, the text up to the leftmost occurrence at `i` is copied and that
      occurrence replaced. */
  lemma {:induction false} ReplaceFromFirst(s: string, pattern: string, replacement: string, k: nat, i: nat)
    requires pattern != [] && k <= i
    requires OccursAt(s, pattern, i)
    requires forall j :: k <= j < i ==> !OccursAt(s, pattern, j)
    ensures ReplaceFrom(s, pattern, replacement, k)
            == s[k..i] + replacement + ReplaceFrom(s, pattern, replacement, i + |pattern|)
    decreases i - k
  {
    if k == i {
      assert s[k..i] == [];
    } else {
      ReplaceFromFirst(s, pattern, replacement, k + 1, i);
      assert [s[k]] + s[k + 1..i] == s[k..i];
      Regroup(ReplaceFrom(s, pattern, replacement, k), s[k], ReplaceFrom(s, pattern, replacement, k + 1),
        s[k + 1..i], replacement, ReplaceFrom(s, pattern, replacement, i + |pattern|), s[k..i]);
    }
  }

  /** A character put in front of `before + middle + rest` joins `before`. */
  lemma Regroup(whole: string, head: char, tail: string, before: string, middle: string, rest: string, prefix: string)
    requires whole == [head] + tail && tail == before + middle + rest && prefix == [head] + before
    ensures whole == prefix + middle + rest
  {
  }

  /** Scanning `s` from `k + m` is scanning its suffix `s[k..]` from `m`. */
  lemma {:induction false} ReplaceFromSuffix(s: string, pattern: string, replacement: string, k: nat, m: nat)
    requires pattern != [] && k + m <= |s|
    ensures ReplaceFrom(s, pattern, replacement, k + m) == ReplaceFrom(s[k..], pattern, replacement, m)
    decreases |s| - k - m
  {
    if k + m < |s| {
      OccursInSuffix(s, pattern, k, m);
      if OccursAt(s, pattern, k + m) {
        ReplaceFromSuffix(s, pattern, replacement, k, m + |pattern|);
      } else {
        assert s[k..][m] == s[k + m];
        ReplaceFromSuffix(s, pattern, replacement, k, m + 1);
      }
    }
  }

  /** The pattern occurs in `s` at `k + m` exactly when it occurs in `s[k..]` at `m`. */
  lemma OccursInSuffix(s: string, pattern: string, k: nat, m: nat)
    requires k + m <= |s|
    ensures OccursAt(s, pattern, k + m) == OccursAt(s[k..], pattern, m)
  {
    if k + m + |pattern| <= |s| {
      assert s[k..][m..m + |pattern|] == s[k + m..k + m + |pattern|];
    }
  }

  /** The leftmost occurrence is replaced, the text before it is kept, and the scan resumes
      after it. */
  lemma ReplaceAllFirst(s: string, pattern: string, replacement: string, i: nat)
    requires pattern != []
    requires OccursAt(s, pattern, i)
    requires forall j :: 0 <= j < i ==> !OccursAt(s, pattern, j)
    ensures ReplaceAll(s, pattern, replacement) == s[..i] + replacement + ReplaceAll(s[i + |pattern|..], pattern, replacement)
  {
    var rest := ReplaceFrom(s, pattern, replacement, i + |pattern|);
    assert ReplaceAll(s, pattern, replacement) == s[..i] + replacement + rest by {
      ReplaceFromFirst(s, pattern, replacement, 0, i);
      assert s[0..i] == s[..i];
    }
    assert rest == ReplaceAll(s[i + |pattern|..], pattern, replacement) by {
      ReplaceFromSuffix(s, pattern, replacement, i + |pattern|, 0);
    }
  }

  /** The translation after the first `n` values have been substituted, in increasing index
      order. */
  function SubstituteUpTo(translation: string, values: seq<string>, n: nat): string
    requires n <= |values|
  {
    if n == 0 then translation
    else ReplaceAll(SubstituteUpTo(translation, values, n - 1), Placeholder(n - 1), values[n - 1])
  }

  /** What `resolveTranslation` returns: without a table, a missing-file marker; for a key
      with no value or an empty one, a missing-key marker; otherwise the value with `%0`,
      `%1`, ... replaced everywhere by the corresponding `with` values, one index after the
      other. The markers are never empty. */
  function Resolution(translationKey: string, langData: Option<LangData>, withValues: Option<seq<string>>): (text: string)
    ensures langData.None? ==> text == "[MISSING LANG FILE: " + translationKey + "]"
    ensures langData.Some? && (translationKey !in langData.value || langData.value[translationKey] == []) ==>
              text == "[MISSING KEY: " + translationKey + "]"
    ensures langData.Some? && translationKey in langData.value && langData.value[translationKey] != [] ==>
              text == SubstituteUpTo(langData.value[translationKey], withValues.GetOr([]), |withValues.GetOr([])|)
  {
    if langData.None? then "[MISSING LANG FILE: " + translationKey + "]"
    else if translationKey !in langData.value || langData.value[translationKey] == [] then "[MISSING KEY: " + translationKey + "]"
    else
      var values := withValues.GetOr([]);
      SubstituteUpTo(langData.value[translationKey], values, |values|)
  }

  /** `resolveTranslation`, with its substitution loop. */
  method ResolveTranslation(translationKey: string, langData: Option<LangData>, withValues: Option<seq<string>>) returns (text: string)
    ensures text == Resolution(translationKey, langData, withValues)
  {
    if langData.None? {
      return "[MISSING LANG FILE: " + translationKey + "]";
    }
    if translationKey !in langData.value || langData.value[translationKey] == [] {
      return "[MISSING KEY: " + translationKey + "]";
    }
    var translation := langData.value[translationKey];
    var values := withValues.GetOr([]);
    for index := 0 to |values|
      invariant translation == SubstituteUpTo(langData.value[translationKey], values, index)
    {
      var placeholder := "%" + DecimalString(index);
      translation := ReplaceAll(translation, placeholder, values[index]);
    }
    text := translation;
  }

  /** An absent `with` list and an empty one resolve alike. */
  lemma ResolutionEmptyWith(translationKey: string, langData: Option<LangData>)
    ensures Resolution(translationKey, langData, Some([])) == Resolution(translationKey, langData, None)
  {
  }

  /** With no `with` values the translation comes back unchanged; with one value, a
      translation whose only placeholder is a single `%0` has it replaced. */
  lemma SubstituteZeroPlaceholder(translation: string, before: string, after: string, value: string)
    requires forall i :: 0 <= i <= |before| ==> !OccursAt(before, "%0", i)
    requires forall i :: 0 <= i <= |after| ==> !OccursAt(after, "%0", i)
    ensures SubstituteUpTo(translation, [], 0) == translation
    ensures SubstituteUpTo(before + "%0" + after, [value], 1) == before + value + after
  {
    var s := before + "%0" + after;
    assert Placeholder(0) == "%0" by {
      assert DecimalString(0) == "0";
    }
    assert OccursAt(s, "%0", |before|) by {
      assert s[|before|..|before| + 2] == "%0";
    }
    forall j | 0 <= j < |before|
      ensures !OccursAt(s, "%0", j)
    {
      if j + 2 <= |before| {
        assert before[j..j + 2] == s[j..j + 2];
        assert !OccursAt(before, "%0", j);
      } else {
        assert s[j + 1] == '%';
        assert s[j..j + 2][1] == '%' != "%0"[1];
      }
    }
    ReplaceAllFirst(s, "%0", value, |before|);
    assert s[..|before|] == before;
    assert s[|before| + 2..] == after;
    ReplaceAllAbsent(after, "%0", value);
  }

  // ---------------------------------------------------------------------------------------
  // The line edit of updateLangFile
  // ---------------------------------------------------------------------------------------

  /** The line `key=value` the edit writes. */
  function EntryLine(key: string, value: string): string {
    key + "=" + value
  }

  /** Whether the edit recognises the line as setting `key`: its trimmed form starts with
      `key=`. */
  predicate SetsKey(line: string, key: string) {
    StartsWith(Trim(line), key + "=")
  }

  /** For each line, whether the edit recognises it as setting `key`. */
  function Recognised(lines: seq<string>, key: string): (flags: seq<bool>)
    ensures |flags| == |lines|
    ensures forall j :: 0 <= j < |lines| ==> flags[j] == SetsKey(lines[j], key)
  {
    seq(|lines|, j requires 0 <= j < |lines| => SetsKey(lines[j], key))
  }

  /** The first line the edit recognises as setting `key`, if any. */
  function FirstMatch(lines: seq<string>, key: string): (r: Option<nat>)
    ensures r.Some? ==> r.value < |lines| && SetsKey(lines[r.value], key)
    ensures r.Some? ==> forall j :: 0 <= j < r.value ==> !SetsKey(lines[j], key)
    ensures r.None? ==> forall j :: 0 <= j < |lines| ==> !SetsKey(lines[j], key)
  {
    FirstSet(Recognised(lines, key), 0)
  }

  /** The first position at or after `start` whose flag is set, if any. */
  function FirstSet(flags: seq<bool>, start: nat): (r: Option<nat>)
    requires start <= |flags|
    decreases |flags| - start
    ensures r.Some? ==> start <= r.value < |flags| && flags[r.value]
    ensures r.Some? ==> forall j :: start <= j < r.value ==> !flags[j]
    ensures r.None? ==> forall j :: start <= j < |flags| ==> !flags[j]
  {
    if start == |flags| then None
    else if flags[start] then Some(start)
    else FirstSet(flags, start + 1)
  }

  /** The lines after the edit: the first matching line becomes `key=value`, or that line is
      appended when none matches; every other line is kept. */
  function EditedLines(lines: seq<string>, key: string, value: string): (r: seq<string>)
    ensures FirstMatch(lines, key).Some? ==> r == lines[FirstMatch(lines, key).value := EntryLine(key, value)]
    ensures FirstMatch(lines, key).None? ==> r == lines + [EntryLine(key, value)]
  {
    match FirstMatch(lines, key)
    case Some(i) => lines[i := EntryLine(key, value)]
    case None => lines + [EntryLine(key, value)]
  }

  /** The edit loop of `updateLangFile`, on the file's lines. */
  method EditLines(lines: seq<string>, key: string, value: string) returns (edited: seq<string>)
    ensures edited == EditedLines(lines, key, value)
  {
    edited := lines;
    var found := false;
    var i := 0;
    while i < |edited|
      invariant 0 <= i <= |edited| && edited == lines
      invariant forall j :: 0 <= j < i ==> !SetsKey(lines[j], key)
    {
      var line := Trim(edited[i]);
      if StartsWith(line, key + "=") {
        FirstMatchIs(lines, key, i);
        edited := edited[i := key + "=" + value];
        found := true;
        break;
      }
      i := i + 1;
    }
    if !found {
      edited := edited + [key + "=" + value];
    }
  }

  /** A line the edit recognises, with none recognised before it, is the first match. */
  lemma FirstMatchIs(lines: seq<string>, key: string, i: nat)
    requires i < |lines| && SetsKey(lines[i], key)
    requires forall j :: 0 <= j < i ==> !SetsKey(lines[j], key)
    ensures FirstMatch(lines, key) == Some(i)
  {
  }

  /** `updateLangFile` without the file system: the content after the edit. */
  method UpdateLangContent(content: string, key: string, value: string) returns (updated: string)
    ensures updated == Join(EditedLines(Split(content, '\n'), key, value), '\n')
  {
    var lines := Split(content, '\n');
    var edited := EditLines(lines, key, value);
    updated := Join(edited, '\n');
  }

  /** A key and value the parser reads back as written: the key is non-empty, has no '=',
      white space at its ends or comment start, and the value has no white space at its
      ends. */
  predicate CleanEntry(key: string, value: string) {
    && key != [] && '=' !in key
    && !IsWhitespace(key[0]) && !IsWhitespace(key[|key| - 1])
    && key[0] != '#' && !StartsWith(key, "//")
    && (value == [] || (!IsWhitespace(value[0]) && !IsWhitespace(value[|value| - 1])))
  }

  /** A clean `key=value` line is already trimmed, is no comment, and its first '=' is the
      one after the key. */
  lemma EntryLineShape(key: string, value: string)
    requires CleanEntry(key, value)
    ensures var line := EntryLine(key, value);
            && Trim(line) == line
            && !StartsWith(line, "#") && !StartsWith(line, "//")
            && line[..|key|] == key && line[|key| + 1..] == value
  {
    var line := EntryLine(key, value);
    TrimOfTrimmed(line);
    assert !StartsWith(line, "//") by {
      if |key| >= 2 {
        assert line[..2] == key[..2];
      } else {
        assert line[1] == '=';
      }
    }
    assert line[..|key|] == key;
    assert line[|key| + 1..] == value;
  }

  /** The first '=' of a clean `key=value` line is the one after the key. */
  lemma EntryLineEquals(key: string, value: string)
    requires '=' !in key
    ensures IndexOf(EntryLine(key, value), '=') == |key|
  {
    var line := EntryLine(key, value);
    assert line[|key|] == '=';
    assert forall k :: 0 <= k < |key| ==> line[k] == key[k];
  }

  /** A clean `key=value` line parses to that key and value. */
  lemma ParsedEntryLine(key: string, value: string)
    requires CleanEntry(key, value)
    ensures ParsedLine(EntryLine(key, value)) == Some((key, value))
  {
    EntryLineShape(key, value);
    EntryLineEquals(key, value);
    TrimOfTrimmed(key);
    TrimOfTrimmed(value);
  }

  /** After the edit, parsing the lines reads back the new value for the key, provided no
      line after the edited one sets the key in a form the edit does not recognise (such as
      `key =old`). */
  lemma EditThenParse(lines: seq<string>, key: string, value: string)
    requires CleanEntry(key, value)
    requires FirstMatch(lines, key).Some? ==>
               forall j :: FirstMatch(lines, key).value < j < |lines| && ParsedLine(lines[j]).Some? ==>
                 ParsedLine(lines[j]).value.0 != key
    ensures key in Collect(ParsedLines(EditedLines(lines, key, value)))
    ensures Collect(ParsedLines(EditedLines(lines, key, value)))[key] == value
  {
    var line := EntryLine(key, value);
    ParsedEntryLine(key, value);
    match FirstMatch(lines, key)
    case Some(i) =>
      ParsedLinesUpdate(lines, i, line);
      CollectAfterWrite(ParsedLines(lines), i, key, value);
    case None =>
      ParsedLinesAppend(lines, line);
      CollectLastWins(ParsedLines(lines) + [Some((key, value))], |lines|);
  }

  /** Parsing after one line is replaced: only that line's entry changes. */
  lemma ParsedLinesUpdate(lines: seq<string>, i: nat, line: string)
    requires i < |lines|
    ensures ParsedLines(lines[i := line]) == ParsedLines(lines)[i := ParsedLine(line)]
  {
  }

  /** Parsing after a line is appended: its entry comes last. */
  lemma ParsedLinesAppend(lines: seq<string>, line: string)
    ensures ParsedLines(lines + [line]) == ParsedLines(lines) + [ParsedLine(line)]
  {
  }

  /** Writing an entry for a key that no later entry sets makes the table map the key to
      the entry's value. */
  lemma CollectAfterWrite(entries: seq<Option<(string, string)>>, i: nat, key: string, value: string)
    requires i < |entries|
    requires forall j :: i < j < |entries| && entries[j].Some? ==> entries[j].value.0 != key
    ensures key in Collect(entries[i := Some((key, value))])
    ensures Collect(entries[i := Some((key, value))])[key] == value
  {
    CollectLastWins(entries[i := Some((key, value))], i);
  }
}
