/** Shortening a text to a preview that does not end in the middle of punctuation. */
module SmartTrim {

  predicate IsWord(c: char)
  {
    'a' <= c <= 'z' || 'A' <= c <= 'Z' || '0' <= c <= '9' || c == '_'
  }

  /** Drops the run of non-word characters at the end. */
  function DropTrailing(s: string): string
  {
    if s != "" && !IsWord(s[|s| - 1]) then DropTrailing(s[..|s| - 1]) else s
  }

  const ELLIPSIS := "..."

  function SmartTrim(text: string, maxLength: nat): string
  {
    if |text| > maxLength then
      var smartTrimmedText := DropTrailing(text[..maxLength]);
      if |smartTrimmedText| == 0 then text[..maxLength] + ELLIPSIS else smartTrimmedText + ELLIPSIS
    else
      text
  }

  /** Where a text longer than `maxLength` is cut: after its last word character, if it has one. */
  ghost predicate IsCut(text: string, maxLength: nat, n: nat)
    requires |text| > maxLength
  {
    && n <= maxLength
    && (if n == 0 || !IsWord(text[n - 1]) then n == maxLength && forall i :: 0 <= i < maxLength ==> !IsWord(text[i])
        else forall i :: n <= i < maxLength ==> !IsWord(text[i]))
  }

  lemma {:induction false} DropTrailingIsPrefix(s: string)
    ensures var t := DropTrailing(s);
      && t <= s
      && (t != "" ==> IsWord(t[|t| - 1]))
      && (forall i :: |t| <= i < |s| ==> !IsWord(s[i]))
  {
    if s != "" && !IsWord(s[|s| - 1]) {
      DropTrailingIsPrefix(s[..|s| - 1]);
    }
  }

  /** A text that ends in a word character keeps all of it when non-word characters are appended. */
  lemma {:induction false} DropTrailingUndoesPadding(s: string, padding: string)
    requires s != "" && IsWord(s[|s| - 1])
    requires forall c :: c in padding ==> !IsWord(c)
    ensures DropTrailing(s + padding) == s
  {
    if padding == "" {
      assert s + padding == s;
    } else {
      var init := padding[..|padding| - 1];
      assert (s + padding)[..|s + padding| - 1] == s + init;
      assert padding[|padding| - 1] in padding;
      assert forall c :: c in init ==> c in padding;
      DropTrailingUndoesPadding(s, init);
    }
  }

  /**
   The result is the text itself when it is short enough. Otherwise it is the text up to
   the one possible cut, followed by an ellipsis, and so at most three characters too long.
   */
  lemma TrimmedShape(text: string, maxLength: nat)
    ensures |text| <= maxLength ==> SmartTrim(text, maxLength) == text
    ensures |text| > maxLength ==>
      exists n: nat :: IsCut(text, maxLength, n) && SmartTrim(text, maxLength) == text[..n] + "..."
    ensures |SmartTrim(text, maxLength)| <= maxLength + 3
  {
    if |text| > maxLength {
      var t := text[..maxLength];
      DropTrailingIsPrefix(t);
      var n := if DropTrailing(t) == "" then maxLength else |DropTrailing(t)|;
      assert forall i :: 0 <= i < maxLength ==> t[i] == text[i];
      assert IsCut(text, maxLength, n);
      assert text[..n] == t[..n];
    }
  }

  /** There is only one place to cut. */
  lemma CutIsUnique(text: string, maxLength: nat, n: nat, n': nat)
    requires |text| > maxLength && IsCut(text, maxLength, n) && IsCut(text, maxLength, n')
    ensures n == n'
  {
  }

  /** Trimming an already trimmed text to the same length changes nothing. */
  lemma SmartTrimIsIdempotent(text: string, maxLength: nat)
    ensures SmartTrim(SmartTrim(text, maxLength), maxLength) == SmartTrim(text, maxLength)
  {
    if |text| > maxLength {
      var t := text[..maxLength];
      var s := DropTrailing(t);
      DropTrailingIsPrefix(t);
      var r := SmartTrim(text, maxLength);
      if s == "" {
        assert r[..maxLength] == t;
      } else if |r| > maxLength {
        var padding := ELLIPSIS[..maxLength - |s|];
        assert r[..maxLength] == s + padding;
        DropTrailingUndoesPadding(s, padding);
      }
    }
  }

  /** Word characters are the digits, the upper-case letters, the underscore and the lower-case letters of ASCII. */
  lemma WordCharactersByNumber(c: char)
    ensures IsWord(c) <==> var n := c as int; 48 <= n <= 57 || 65 <= n <= 90 || n == 95 || 97 <= n <= 122
  {
  }
}
