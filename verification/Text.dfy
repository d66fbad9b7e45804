/** The string operations the bus relies on, over ASCII characters. */
module Text {
  import opened Base

  predicate IsSpace(c: char) {
    c == ' ' || 9 <= c as int <= 13
  }

  predicate IsControl(c: char) {
    c as int < 32 || c as int == 127
  }

  predicate IsAscii(c: char) {
    c as int < 128
  }

  function TrimStart(s: string): (r: string)
    ensures r != [] ==> !IsSpace(r[0])
    ensures |r| <= |s| && r == s[|s| - |r|..]
    ensures s != [] && !IsSpace(s[0]) ==> r == s
  {
    if s != [] && IsSpace(s[0]) then TrimStart(s[1..]) else s
  }

  function TrimEnd(s: string): (r: string)
    ensures r != [] ==> !IsSpace(r[|r| - 1])
    ensures |r| <= |s| && r == s[..|r|]
    ensures s != [] && !IsSpace(s[|s| - 1]) ==> r == s
  {
    if s != [] && IsSpace(s[|s| - 1]) then TrimEnd(s[..|s| - 1]) else s
  }

  function Trim(s: string): (r: string)
    ensures Trimmed(r)
    ensures Trimmed(s) ==> r == s
    ensures |r| <= |s|
  {
    TrimEnd(TrimStart(s))
  }

  /** Trimming adds no characters. */
  lemma TrimOnlyRemoves(s: string, c: char)
    requires c !in s
    ensures c !in Trim(s)
  {}

  /** No white space at either end. */
  predicate Trimmed(s: string) {
    s != [] ==> !IsSpace(s[0]) && !IsSpace(s[|s| - 1])
  }

  /** check_text: the raw value is measured too, and what is returned is trimmed. */
  function CheckText(value: string, max: nat): (r: Result<string>)
    ensures r.Ok? <==> |value| <= max
    ensures r.Ok? ==> r.value == Trim(value) && |r.value| <= max && (Trimmed(value) ==> r.value == value)
    ensures r.Err? ==> r == Err(Invalid)
  {
    if |value| > max then Err(Invalid)
    else
      var trimmed := Trim(value);
      if |trimmed| > max then Err(Invalid) else Ok(trimmed)
  }

  function LowerChar(c: char): (r: char)
    ensures !('A' <= r <= 'Z')
    ensures IsSpace(r) <==> IsSpace(c)
  {
    if 'A' <= c <= 'Z' then (c as int + 32) as char else c
  }

  function Lower(s: string): (r: string)
    ensures |r| == |s|
    ensures forall i :: 0 <= i < |s| ==> r[i] == LowerChar(s[i])
    ensures Trimmed(s) ==> Trimmed(r)
  {
    seq(|s|, i requires 0 <= i < |s| => LowerChar(s[i]))
  }

  // ------------------------------------------------------------------ in characters --

  /** Nothing but white space. */
  predicate Blank(s: string) {
    forall i :: 0 <= i < |s| ==> IsSpace(s[i])
  }

  lemma {:induction false} StartIsCut(pad: string, s: string)
    requires Blank(pad)
    ensures TrimStart(pad + s) == TrimStart(s)
    decreases |pad|
  {
    if pad == "" {
      assert pad + s == s;
    } else {
      assert (pad + s)[0] == pad[0] && (pad + s)[1..] == pad[1..] + s;
      StartIsCut(pad[1..], s);
    }
  }

  lemma {:induction false} EndIsCut(s: string, pad: string)
    requires Blank(pad)
    ensures TrimEnd(s + pad) == TrimEnd(s)
    decreases |pad|
  {
    if pad == "" {
      assert s + pad == s;
    } else {
      var front := pad[..|pad| - 1];
      assert (s + pad)[|s + pad| - 1] == pad[|pad| - 1] && (s + pad)[..|s + pad| - 1] == s + front;
      EndIsCut(s, front);
    }
  }

  /** Trimming cuts the white space at both ends, and nothing more. */
  lemma {:induction false} TrimCutsSpaces(before: string, s: string, after: string)
    requires Blank(before) && Trimmed(s) && Blank(after)
    ensures Trim(before + (s + after)) == s
  {
    StartIsCut(before, s + after);
    if s == "" {
      assert s + after == after && after + "" == after;
      StartIsCut(after, "");
    } else {
      assert (s + after)[0] == s[0];
      EndIsCut(s, after);
    }
  }

  /** White space is the blank and 9 to 13, tabs and line ends; control characters are those below it, and delete. */
  lemma CharactersInNumbers(c: char)
    ensures Trim([c]) == "" <==> c as int == 32 || 9 <= c as int <= 13
    ensures Blank([c]) <==> Trim([c]) == ""
    ensures IsControl(c) <==> c as int < 32 || c as int == 127
    ensures IsAscii(c) <==> c as int <= 127
  {
    assert [c][1..] == "" && [c][..0] == "";
  }

  /** Lower case: each capital becomes its small letter, and everything else stays. */
  lemma LowerInLetters(s: string, i: nat)
    requires i < |s|
    ensures |Lower(s)| == |s|
    ensures if 'A' <= s[i] <= 'Z' then 'a' <= Lower(s)[i] <= 'z' && Lower(s)[i] - 'a' == s[i] - 'A'
            else Lower(s)[i] == s[i]
  {}
}
