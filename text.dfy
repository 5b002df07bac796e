/** Text helpers the broadcast handlers apply to the owner's message: joining
    the command arguments and `html.escape` before sending with HTML parse
    mode. `Unescape` is the entity decoding the chat client performs when it
    renders such a message; it is here as the partner that says what escaping
    is for: the recipients read exactly the text the owner typed. */
module Text {

  /** The total number of characters in `words`. */
  function TotalLength(words: seq<string>): nat
  {
    if words == [] then 0 else |words[0]| + TotalLength(words[1..])
  }

  /** `" ".join(words)`: the words in order, one space between neighbours. */
  function Join(words: seq<string>): (r: string)
    ensures words != [] ==> |r| == TotalLength(words) + |words| - 1
    ensures words == [] ==> r == ""
    ensures words != [] ==> r[..|words[0]|] == words[0]
  {
    if words == [] then ""
    else if |words| == 1 then words[0]
    else
      var rest := Join(words[1..]);
      assert (words[0] + " " + rest)[..|words[0]|] == words[0];
      words[0] + " " + rest
  }

  /** The index of the first space of `s`. */
  function FirstSpace(s: string): (i: nat)
    requires ' ' in s
    ensures i < |s| && s[i] == ' ' && ' ' !in s[..i]
  {
    if s[0] == ' ' then 0
    else
      assert ' ' in s[1..];
      var i := FirstSpace(s[1..]);
      assert s[..i + 1] == [s[0]] + s[1..][..i];
      1 + i
  }

  /** `s.split(" ")`: the pieces of `s` between single spaces. */
  function Split(s: string): seq<string>
    decreases |s|
  {
    if ' ' !in s then [s]
    else
      var i := FirstSpace(s);
      [s[..i]] + Split(s[i + 1..])
  }

  lemma FirstSpaceAfter(a: string, b: string)
    requires ' ' !in a
    ensures ' ' in a + " " + b && FirstSpace(a + " " + b) == |a|
  {
    var s := a + " " + b;
    assert s[|a|] == ' ';
  }

  /** The command's arguments come from splitting the message text on
      spaces, so they hold no space; joining them and splitting again gives
      back the same arguments. */
  lemma {:induction false} SplitJoin(words: seq<string>)
    requires words != []
    requires forall k :: 0 <= k < |words| ==> ' ' !in words[k]
    ensures Split(Join(words)) == words
  {
    if |words| > 1 {
      var rest := Join(words[1..]);
      FirstSpaceAfter(words[0], rest);
      var s := words[0] + " " + rest;
      assert s[..|words[0]|] == words[0];
      assert s[|words[0]| + 1..] == rest;
      SplitJoin(words[1..]);
      assert words == [words[0]] + words[1..];
    }
  }

  /** The characters `html.escape(s, quote=True)` never leaves in its result. */
  predicate IsMarkup(c: char) {
    c == '<' || c == '>' || c == '"' || c == '\''
  }

  /** One character of `html.escape(s, quote=True)`. */
  function EscapeChar(c: char): string
  {
    match c
    case '&' => "&amp;"
    case '<' => "&lt;"
    case '>' => "&gt;"
    case '"' => "&quot;"
    case '\'' => "&#x27;"
    case _ => [c]
  }

  /** `html.escape(s)`: the result carries no markup character, so the chat
      client cannot read any part of the message as a tag or attribute. */
  function Escape(s: string): (r: string)
    ensures forall i :: 0 <= i < |r| ==> !IsMarkup(r[i])
    ensures |s| <= |r|
  {
    if s == [] then [] else EscapeChar(s[0]) + Escape(s[1..])
  }

  predicate HasPrefix(s: string, p: string) {
    |p| <= |s| && s[..|p|] == p
  }

  /** Decoding of the five entities `html.escape` produces. */
  function Unescape(s: string): string
    decreases |s|
  {
    if s == [] then []
    else if HasPrefix(s, "&amp;") then "&" + Unescape(s[5..])
    else if HasPrefix(s, "&lt;") then "<" + Unescape(s[4..])
    else if HasPrefix(s, "&gt;") then ">" + Unescape(s[4..])
    else if HasPrefix(s, "&quot;") then "\"" + Unescape(s[6..])
    else if HasPrefix(s, "&#x27;") then "'" + Unescape(s[6..])
    else [s[0]] + Unescape(s[1..])
  }

  lemma UnescapeEscapedChar(c: char, rest: string)
    ensures Unescape(EscapeChar(c) + rest) == [c] + Unescape(rest)
  {
    var e := EscapeChar(c) + rest;
    if c == '&' {
      assert HasPrefix(e, "&amp;") && e[5..] == rest;
    } else if c == '<' {
      assert !HasPrefix(e, "&amp;") by { assert e[1] == 'l'; }
      assert HasPrefix(e, "&lt;") && e[4..] == rest;
    } else if c == '>' {
      assert !HasPrefix(e, "&amp;") by { assert e[1] == 'g'; }
      assert !HasPrefix(e, "&lt;") by { assert e[1] == 'g'; }
      assert HasPrefix(e, "&gt;") && e[4..] == rest;
    } else if c == '"' {
      assert !HasPrefix(e, "&amp;") by { assert e[1] == 'q'; }
      assert !HasPrefix(e, "&lt;") by { assert e[1] == 'q'; }
      assert !HasPrefix(e, "&gt;") by { assert e[1] == 'q'; }
      assert HasPrefix(e, "&quot;") && e[6..] == rest;
    } else if c == '\'' {
      assert !HasPrefix(e, "&amp;") by { assert e[1] == '#'; }
      assert !HasPrefix(e, "&lt;") by { assert e[1] == '#'; }
      assert !HasPrefix(e, "&gt;") by { assert e[1] == '#'; }
      assert !HasPrefix(e, "&quot;") by { assert e[1] == '#'; }
      assert HasPrefix(e, "&#x27;") && e[6..] == rest;
    } else {
      assert e == [c] + rest && e[0] == c && e[1..] == rest;
      assert !HasPrefix(e, "&amp;") && !HasPrefix(e, "&lt;") && !HasPrefix(e, "&gt;");
      assert !HasPrefix(e, "&quot;") && !HasPrefix(e, "&#x27;");
    }
  }

  /** What the recipients of a broadcast read is the message itself. */
  lemma {:induction false} UnescapeEscape(s: string)
    ensures Unescape(Escape(s)) == s
  {
    if s != [] {
      UnescapeEscapedChar(s[0], Escape(s[1..]));
      UnescapeEscape(s[1..]);
      assert s == [s[0]] + s[1..];
    }
  }
}
