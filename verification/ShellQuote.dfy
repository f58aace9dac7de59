/** shell_quote of system_service/wifi_switch_a733.c, and a reader for words by sections 2.2.1 (escape
    character) and 2.2.2 (single-quotes) of the POSIX Shell Command Language. */
module ShellQuote {
  import opened Bytes

  function Piece(c: char): string {
    if c == '\'' then "'\\''" else [c]
  }

  function Body(s: string): string {
    if s == [] then "" else Piece(s[0]) + Body(s[1..])
  }

  function Quoted(s: string): string {
    "'" + Body(s) + "'"
  }

  function Quotes(s: string): nat {
    if s == [] then 0 else (if s[0] == '\'' then 1 else 0) + Quotes(s[1..])
  }

  lemma {:induction false} BodyLength(s: string)
    ensures |Body(s)| == |s| + 3 * Quotes(s)
  {
    if s == [] {
    } else {
      BodyLength(s[1..]);
    }
  }

  lemma {:induction false} BodyAppend(a: string, b: string)
    ensures Body(a + b) == Body(a) + Body(b)
  {
    if a == [] {
      assert a + b == b;
    } else {
      BodyAppend(a[1..], b);
      assert (a + b)[0] == a[0] && (a + b)[1..] == a[1..] + b;
    }
  }

  lemma BodyOne(c: char)
    ensures Body([c]) == Piece(c)
  {
    assert [c][1..] == [];
  }

  lemma BodyStep(s: string, i: nat)
    requires i < |s|
    ensures "'" + Body(s[..i + 1]) == "'" + Body(s[..i]) + Piece(s[i])
    ensures |Body(s[..i])| + |Piece(s[i])| <= |Body(s)|
  {
    assert s[..i + 1] == s[..i] + [s[i]] && s == s[..i + 1] + s[i + 1..];
    BodyAppend(s[..i], [s[i]]);
    BodyOne(s[i]);
    BodyAppend(s[..i + 1], s[i + 1..]);
  }

  /** The room shell_quote needs: the text, three more characters per quote, two quotes and the NUL. */
  function Needed(s: string): nat {
    |s| + 3 * Quotes(s) + 3
  }

  method Put(out: array<char>, pos: nat, text: string)
    requires pos + |text| <= out.Length
    modifies out
    ensures out[..pos + |text|] == old(out[..pos]) + text
    ensures forall i :: pos + |text| <= i < out.Length ==> out[i] == old(out[i])
  {
    forall k | 0 <= k < |text| {
      out[pos + k] := text[k];
    }
  }

  method ShellQuote(input: string, out: array<char>, cap: nat) returns (ok: bool)
    requires '\0' !in input && cap <= out.Length
    modifies out
    ensures ok <==> Needed(input) <= cap
    ensures ok ==> |Quoted(input)| < out.Length && out[..|Quoted(input)| + 1] == Quoted(input) + "\0"
    ensures forall i :: cap <= i < out.Length ==> out[i] == old(out[i])
  {
    BodyLength(input);
    if cap < 3 {
      return false;
    }
    out[0] := '\'';
    var pos, i := 1, 0;
    while i < |input|
      invariant 0 <= i <= |input|
      invariant 1 <= pos < cap
      invariant out[..pos] == "'" + Body(input[..i])
      invariant forall j :: cap <= j < out.Length ==> out[j] == old(out[j])
    {
      BodyStep(input, i);
      if input[i] == '\'' {
        if pos + 4 >= cap {
          return false;
        }
        Put(out, pos, "'\\''");
        pos := pos + 4;
      } else {
        if pos + 1 >= cap {
          return false;
        }
        Put(out, pos, [input[i]]);
        pos := pos + 1;
      }
      i := i + 1;
    }
    assert input[..|input|] == input;
    if pos + 2 > cap {
      return false;
    }
    Put(out, pos, "'");
    Put(out, pos + 1, "\0");
    return true;
  }

  // ---------- reading a word ----------

  /** Characters that end an unquoted word: blanks, newline and operators. */
  predicate EndsWord(c: char) {
    c in " \t\n|&;<>()"
  }

  /** Characters with a meaning that these two sections do not give. */
  predicate Special(c: char) {
    c in "\"$`*?[#~=%"
  }

  /** Reads on with `word` gathered so far, None as long as nothing of a word was seen; the word and what
      follows it, or None if there is no word or the text is not covered by these two sections.  A quote
      begins a word, an empty one if nothing follows; an escaped newline does not. */
  function ReadOn(single: bool, word: Option<string>, text: string): Option<(string, string)>
    decreases |text|
  {
    var seen := if word.Some? then word.value else "";
    if text == [] then
      if single || word.None? then None else Some((seen, text))
    else if single then
      ReadOn(text[0] != '\'', Some(if text[0] == '\'' then seen else seen + [text[0]]), text[1..])
    else if EndsWord(text[0]) then
      if word.None? then None else Some((seen, text))
    else if text[0] == '\'' then ReadOn(true, Some(seen), text[1..])
    else if text[0] == '\\' then
      if |text| == 1 then None
      else if text[1] == '\n' then ReadOn(false, word, text[2..])
      else ReadOn(false, Some(seen + [text[1]]), text[2..])
    else if Special(text[0]) then None
    else ReadOn(false, Some(seen + [text[0]]), text[1..])
  }

  function ReadWord(text: string): Option<(string, string)> {
    ReadOn(false, None, text)
  }

  lemma ReadPiece(word: string, c: char, rest: string)
    ensures ReadOn(true, Some(word), Piece(c) + rest) == ReadOn(true, Some(word + [c]), rest)
  {
    var text := Piece(c) + rest;
    if c == '\'' {
      assert text[0] == '\'' && text[1] == '\\' && text[2] == '\'' && text[3] == '\'';
      assert text[1..][0] == '\\' && text[1..][1] == '\'';
      assert text[1..][2..] == text[3..] && text[3..][1..] == rest;
      assert ReadOn(true, Some(word), text) == ReadOn(false, Some(word), text[1..]);
      assert ReadOn(false, Some(word), text[1..]) == ReadOn(false, Some(word + [c]), text[3..]);
    } else {
      assert text[1..] == rest;
    }
  }

  lemma {:induction false} ReadBody(word: string, s: string, rest: string)
    ensures ReadOn(true, Some(word), Body(s) + rest) == ReadOn(true, Some(word + s), rest)
    decreases |s|
  {
    if s == [] {
      assert Body(s) + rest == rest && word + s == word;
    } else {
      assert Body(s) + rest == Piece(s[0]) + (Body(s[1..]) + rest);
      ReadPiece(word, s[0], Body(s[1..]) + rest);
      ReadBody(word + [s[0]], s[1..], rest);
      assert word + [s[0]] + s[1..] == word + s;
    }
  }

  /** Wherever a word may end, the shell reads the quoted text as one word, the input itself. */
  lemma ReadQuoted(s: string, rest: string)
    requires rest == "" || EndsWord(rest[0])
    ensures ReadWord(Quoted(s) + rest) == Some((s, rest))
  {
    var text := Quoted(s) + rest;
    assert text[0] == '\'' && text[1..] == Body(s) + ("'" + rest);
    ReadBody("", s, "'" + rest);
    assert "" + s == s;
    assert ("'" + rest)[1..] == rest;
    assert ReadOn(true, Some(s), "'" + rest) == ReadOn(false, Some(s), rest);
  }
}
