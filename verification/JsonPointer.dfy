/** JSON Pointer text (sections 3 and 4 of RFC 6901): escaping, splitting and decoding. */
module JsonPointer {
  /** `text.replaceAll('~' + second, with)`, scanning from the left. */
  function ReplaceEscape(s: string, second: char, with: char): string {
    if |s| == 0 then [] else
    if |s| >= 2 && s[0] == '~' && s[1] == second then [with] + ReplaceEscape(s[2..], second, with)
    else [s[0]] + ReplaceEscape(s[1..], second, with)
  }

  function Unescape(segment: string): string {
    ReplaceEscape(ReplaceEscape(segment, '1', '/'), '0', '~')
  }

  /** `segment.replaceAll(c, '~' + digit)`. */
  function ReplaceChar(s: string, c: char, digit: char): string {
    if |s| == 0 then [] else
    (if s[0] == c then ['~', digit] else [s[0]]) + ReplaceChar(s[1..], c, digit)
  }

  function Escape(segment: string): string {
    ReplaceChar(ReplaceChar(segment, '~', '0'), '/', '1')
  }

  /** `path.split('/')`. */
  function Split(path: string): (parts: seq<string>)
    ensures |parts| > 0
  {
    if |path| == 0 then [""] else
    var rest := Split(path[1..]);
    if path[0] == '/' then [""] + rest else [[path[0]] + rest[0]] + rest[1..]
  }

  function UnescapeAll(parts: seq<string>): (segments: seq<string>)
    ensures |segments| == |parts|
    ensures forall i | 0 <= i < |parts| :: segments[i] == Unescape(parts[i])
  {
    if |parts| == 0 then [] else [Unescape(parts[0])] + UnescapeAll(parts[1..])
  }

  function Decode(path: string): seq<string> {
    UnescapeAll(Split(path)[1..])
  }

  /** The pointer text of a route. */
  function Encode(route: seq<string>): string {
    if |route| == 0 then "" else "/" + Escape(route[0]) + Encode(route[1..])
  }

  /** `Escape` of one character. */
  function EscapeChar(c: char): string {
    if c == '~' then "~0" else if c == '/' then "~1" else [c]
  }

  lemma {:induction false} ReplaceCharConcat(a: string, b: string, c: char, digit: char)
    ensures ReplaceChar(a + b, c, digit) == ReplaceChar(a, c, digit) + ReplaceChar(b, c, digit)
  {
    if |a| == 0 {
      assert a + b == b;
    } else {
      assert (a + b)[1..] == a[1..] + b;
      ReplaceCharConcat(a[1..], b, c, digit);
    }
  }

  lemma EscapeStep(s: string)
    requires |s| > 0
    ensures Escape(s) == EscapeChar(s[0]) + Escape(s[1..])
  {
    var head := if s[0] == '~' then "~0" else [s[0]];
    assert ReplaceChar(s, '~', '0') == head + ReplaceChar(s[1..], '~', '0');
    ReplaceCharConcat(head, ReplaceChar(s[1..], '~', '0'), '/', '1');
    assert head[1..] == (if s[0] == '~' then "0" else "");
    assert head[1..] != "" ==> head[1..][1..] == "";
  }

  lemma {:induction false} EscapeHasNoSlash(s: string)
    ensures '/' !in Escape(s)
  {
    if |s| > 0 {
      EscapeStep(s);
      EscapeHasNoSlash(s[1..]);
    }
  }

  /** How the scan consumes one escaped character. */
  lemma ReplaceEscapeStep(c: char, d: char, t: string, second: char, with: char)
    requires second != '~'
    ensures c != '~' ==> ReplaceEscape([c] + t, second, with) == [c] + ReplaceEscape(t, second, with)
    ensures ReplaceEscape(['~', second] + t, second, with) == [with] + ReplaceEscape(t, second, with)
    ensures d != second && d != '~' ==> ReplaceEscape(['~', d] + t, second, with) == ['~', d] + ReplaceEscape(t, second, with)
  {
    assert ([c] + t)[1..] == t;
    var hit := ['~', second] + t;
    assert hit[2..] == t;
    var miss := ['~', d] + t;
    assert miss[1..] == [d] + t;
    assert miss[1..][1..] == t;
  }

  /** After the first replacement, only the tildes written `~0` are left to restore. */
  lemma {:induction false} FirstPass(s: string)
    ensures ReplaceEscape(Escape(s), '1', '/') == ReplaceChar(s, '~', '0')
  {
    if |s| > 0 {
      EscapeStep(s);
      FirstPass(s[1..]);
      ReplaceEscapeStep(s[0], '0', Escape(s[1..]), '1', '/');
    }
  }

  lemma {:induction false} SecondPass(s: string)
    ensures ReplaceEscape(ReplaceChar(s, '~', '0'), '0', '~') == s
  {
    if |s| > 0 {
      SecondPass(s[1..]);
      ReplaceEscapeStep(s[0], '1', ReplaceChar(s[1..], '~', '0'), '0', '~');
    }
  }

  /** Escaping and decoding a segment are inverse. */
  lemma UnescapeEscape(s: string)
    ensures Unescape(Escape(s)) == s
  {
    FirstPass(s);
    SecondPass(s);
  }

  lemma {:induction false} SplitSegment(a: string, rest: string)
    requires '/' !in a
    ensures Split(a + rest) == [a + Split(rest)[0]] + Split(rest)[1..]
  {
    if |a| == 0 {
      assert a + rest == rest;
      assert a + Split(rest)[0] == Split(rest)[0];
    } else {
      assert (a + rest)[1..] == a[1..] + rest;
      SplitSegment(a[1..], rest);
      assert a + Split(rest)[0] == [a[0]] + (a[1..] + Split(rest)[0]);
    }
  }

  lemma SplitStep(segment: string, rest: string)
    requires '/' !in segment
    ensures Split("/" + segment + rest) == [""] + ([segment + Split(rest)[0]] + Split(rest)[1..])
  {
    SplitSegment(segment, rest);
    assert "/" + segment + rest == "/" + (segment + rest);
    assert ("/" + (segment + rest))[1..] == segment + rest;
  }

  lemma {:induction false} SplitEncode(route: seq<string>)
    ensures Split(Encode(route))[0] == "" && UnescapeAll(Split(Encode(route))[1..]) == route
  {
    hide Split, Escape, Unescape;
    if |route| > 0 {
      var segment := Escape(route[0]);
      SplitEncode(route[1..]);
      EscapeHasNoSlash(route[0]);
      SplitStep(segment, Encode(route[1..]));
      UnescapeEscape(route[0]);
      var tail := Split(Encode(route[1..]))[1..];
      assert segment + "" == segment;
      assert ([segment] + tail)[1..] == tail;
      assert [route[0]] + route[1..] == route;
      assert UnescapeAll([segment] + tail) == [route[0]] + UnescapeAll(tail);
    } else {
      NoSegments();
    }
  }

  lemma NoSegments()
    ensures Split("") == [""]
  {}

  /** Every route can be written as a pointer that decodes back to it. */
  lemma DecodeEncode(route: seq<string>)
    ensures Decode(Encode(route)) == route
  {
    SplitEncode(route);
  }

  lemma {:induction false} EncodeConcat(a: seq<string>, b: seq<string>)
    ensures Encode(a + b) == Encode(a) + Encode(b)
  {
    if |a| == 0 {
      assert a + b == b;
    } else {
      assert (a + b)[1..] == a[1..] + b;
      EncodeConcat(a[1..], b);
    }
  }

  lemma EscapeConcat(a: string, b: string)
    ensures Escape(a + b) == Escape(a) + Escape(b)
  {
    ReplaceCharConcat(a, b, '~', '0');
    ReplaceCharConcat(ReplaceChar(a, '~', '0'), ReplaceChar(b, '~', '0'), '/', '1');
  }

  /** A segment without `~` or `/` is written as it is. */
  lemma {:induction false} EscapePlain(s: string)
    requires '~' !in s && '/' !in s
    ensures Escape(s) == s
  {
    if |s| > 0 {
      EscapeStep(s);
      EscapePlain(s[1..]);
    }
  }
}
