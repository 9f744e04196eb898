/**
  Wire framing of the appender: the newline substitution and the frame shape
  of run_loop, the HTTP PUT request line written by openConnection, and the
  TrimEnd applied to each rendered event by Append. All of it works on
  strings; the UTF-8 / ASCII byte encoding is not modelled.
 */
module Framing {
  import opened Wrappers

  /** Environment.NewLine of the host: "\n" on Unix-like hosts, "\r\n" on Windows. */
  datatype NewLine = Lf | CrLf {
    function Text(): (t: string)
      ensures |t| > 0 && t[|t| - 1] == '\n'
      ensures LineSeparator !in t
    {
      if Lf? then "\n" else "\r\n"
    }
  }

  /** U+2028, which stands in for every embedded newline of a line. */
  const LineSeparator: char := '\U{2028}'

  predicate HasPrefix(s: string, p: string) {
    |p| <= |s| && s[..|p|] == p
  }

  /** p occurs somewhere in s. */
  predicate Contains(s: string, p: string)
    decreases |s|
  {
    HasPrefix(s, p) || (|s| > 0 && Contains(s[1..], p))
  }

  /**
    String.Replace(pat, [c]): scans left to right and replaces every
    non-overlapping occurrence of pat by the single character c.
   */
  function ReplaceAll(s: string, pat: string, c: char): string
    requires |pat| > 0
    decreases |s|
  {
    if |s| == 0 then ""
    else if HasPrefix(s, pat) then [c] + ReplaceAll(s[|pat|..], pat, c)
    else [s[0]] + ReplaceAll(s[1..], pat, c)
  }

  /** The inverse of ReplaceAll: every c goes back to pat. */
  function Restore(s: string, pat: string, c: char): string
    decreases |s|
  {
    if |s| == 0 then ""
    else if s[0] == c then pat + Restore(s[1..], pat, c)
    else [s[0]] + Restore(s[1..], pat, c)
  }

  /**
    When c occurs neither in the text nor in the pattern, restoring undoes the
    replacement: no character of the text is lost.
   */
  lemma {:induction false} RestoreReplaced(s: string, pat: string, c: char)
    requires |pat| > 0 && c !in s && c !in pat
    ensures Restore(ReplaceAll(s, pat, c), pat, c) == s
    decreases |s|
  {
    if |s| > 0 {
      if HasPrefix(s, pat) {
        var rest := s[|pat|..];
        var r := ReplaceAll(rest, pat, c);
        assert forall x :: x in rest ==> x in s;
        RestoreReplaced(rest, pat, c);
        assert ([c] + r)[0] == c && ([c] + r)[1..] == r;
        assert s == s[..|pat|] + rest;
      } else {
        var rest := s[1..];
        var r := ReplaceAll(rest, pat, c);
        assert c !in rest;
        RestoreReplaced(rest, pat, c);
        assert ([s[0]] + r)[0] == s[0] && ([s[0]] + r)[1..] == r;
        assert s == [s[0]] + rest;
      }
    }
  }

  /** A prefix of a replaced string that avoids c was already a prefix of the original. */
  lemma {:induction false} PrefixOfReplaced(t: string, pat: string, c: char, p: string)
    requires |pat| > 0 && c !in p
    requires HasPrefix(ReplaceAll(t, pat, c), p)
    ensures HasPrefix(t, p)
    decreases |t|
  {
    if |p| > 0 {
      if |t| == 0 {
        assert false;
      } else if HasPrefix(t, pat) {
        ReplacedStartsWith(t, pat, c, p);
        assert false;
      } else {
        var r := ReplaceAll(t[1..], pat, c);
        assert ReplaceAll(t, pat, c) == [t[0]] + r;
        assert p[0] == t[0];
        assert HasPrefix(r, p[1..]);
        PrefixOfReplaced(t[1..], pat, c, p[1..]);
        assert t[..|p|] == [t[0]] + t[1..][..|p| - 1];
      }
    }
  }

  /** A replaced string that begins with the pattern begins with c. */
  lemma ReplacedStartsWith(t: string, pat: string, c: char, p: string)
    requires |pat| > 0 && HasPrefix(t, pat)
    requires |p| > 0 && HasPrefix(ReplaceAll(t, pat, c), p)
    ensures p[0] == c
  {
    var r := ReplaceAll(t, pat, c);
    assert r == [c] + ReplaceAll(t[|pat|..], pat, c);
    assert p[0] == r[..|p|][0] == r[0];
  }

  /** After the replacement no occurrence of the pattern is left. */
  lemma {:induction false} ReplacedHasNoPattern(s: string, pat: string, c: char)
    requires |pat| > 0 && c !in pat
    ensures !Contains(ReplaceAll(s, pat, c), pat)
    decreases |s|
  {
    if |s| > 0 {
      if HasPrefix(s, pat) {
        var r := ReplaceAll(s[|pat|..], pat, c);
        ReplacedHasNoPattern(s[|pat|..], pat, c);
        assert ([c] + r)[1..] == r;
        assert ([c] + r)[0] != pat[0];
      } else {
        var r := ReplaceAll(s[1..], pat, c);
        ReplacedHasNoPattern(s[1..], pat, c);
        assert ([s[0]] + r)[1..] == r;
        if HasPrefix([s[0]] + r, pat) {
          assert r[..|pat| - 1] == ([s[0]] + r)[1..|pat|];
          assert HasPrefix(r, pat[1..]);
          PrefixOfReplaced(s[1..], pat, c, pat[1..]);
        }
      }
    }
  }

  /** A string without the pattern is left as it is. */
  lemma {:induction false} ReplaceIdentity(s: string, pat: string, c: char)
    requires |pat| > 0 && !Contains(s, pat)
    ensures ReplaceAll(s, pat, c) == s
    decreases |s|
  {
    if |s| > 0 {
      ReplaceIdentity(s[1..], pat, c);
    }
  }

  /** A one-character pattern occurs exactly when the character does. */
  lemma {:induction false} ContainsChar(s: string, ch: char)
    ensures Contains(s, [ch]) <==> ch in s
    decreases |s|
  {
    if |s| > 0 {
      ContainsChar(s[1..], ch);
      assert s == [s[0]] + s[1..];
    }
  }

  /** The text of a line as it goes on the wire: every NewLine becomes U+2028. */
  function LineText(line: string, nl: NewLine): string {
    ReplaceAll(line, nl.Text(), LineSeparator)
  }

  /**
    The wire text holds no NewLine, and a line without U+2028 of its own is
    recovered from it by turning every U+2028 back into NewLine.
   */
  lemma LineTextRestores(line: string, nl: NewLine)
    ensures !Contains(LineText(line, nl), nl.Text())
    ensures LineSeparator !in line ==> Restore(LineText(line, nl), nl.Text(), LineSeparator) == line
  {
    ReplacedHasNoPattern(line, nl.Text(), LineSeparator);
    if LineSeparator !in line {
      RestoreReplaced(line, nl.Text(), LineSeparator);
    }
  }

  /** The frame run_loop writes for one queued line. */
  function Frame(httpPut: bool, token: string, line: string, nl: NewLine): string {
    (if !httpPut then token + LineText(line, nl) else LineText(line, nl)) + "\n"
  }

  /**
    The line can be read back from its frame: strip the token and the final
    LF and turn every U+2028 back into NewLine, provided the line itself
    holds no U+2028.
   */
  lemma FrameDecodes(httpPut: bool, token: string, line: string, nl: NewLine)
    requires LineSeparator !in line
    ensures var f := Frame(httpPut, token, line, nl);
            var start := if httpPut then 0 else |token|;
            start < |f| && Restore(f[start..|f| - 1], nl.Text(), LineSeparator) == line
  {
    var f := Frame(httpPut, token, line, nl);
    assert f[(if httpPut then 0 else |token|)..|f| - 1] == LineText(line, nl);
    LineTextRestores(line, nl);
  }

  /**
    A frame is the token (token mode only), then the line's text, then LF; the
    text holds no NewLine, and a line without NewLine is sent verbatim.
   */
  lemma FrameFormat(httpPut: bool, token: string, line: string, nl: NewLine)
    ensures var f := Frame(httpPut, token, line, nl);
            var prefix := if httpPut then "" else token;
            && |prefix| < |f| && f[..|prefix|] == prefix && f[|f| - 1] == '\n'
            && !Contains(f[|prefix|..|f| - 1], nl.Text())
            && (!Contains(line, nl.Text()) ==> f[|prefix|..|f| - 1] == line)
  {
    var f := Frame(httpPut, token, line, nl);
    var prefix := if httpPut then "" else token;
    assert f[|prefix|..|f| - 1] == LineText(line, nl);
    ReplacedHasNoPattern(line, nl.Text(), LineSeparator);
    if !Contains(line, nl.Text()) {
      ReplaceIdentity(line, nl.Text(), LineSeparator);
    }
  }

  /**
    On a host whose NewLine is LF, a frame whose token has no LF is one
    physical line: its only LF is the last character.
   */
  lemma FrameIsOneLine(httpPut: bool, token: string, line: string)
    requires '\n' !in token
    ensures var f := Frame(httpPut, token, line, Lf);
            forall i :: 0 <= i < |f| - 1 ==> f[i] != '\n'
  {
    var text := LineText(line, Lf);
    ReplacedHasNoPattern(line, "\n", LineSeparator);
    ContainsChar(text, '\n');
    var f := Frame(httpPut, token, line, Lf);
    assert f[..|f| - 1] == (if httpPut then "" else token) + text;
  }

  /**
    A token that ends in LF (which Guid.TryParse accepts, as it trims white
    space) puts an LF before the end of every token-mode frame, so even on
    an LF host each frame spans at least two physical lines.
   */
  lemma TokenWithLfSplitsFrame(token: string, line: string, nl: NewLine)
    requires |token| > 0 && token[|token| - 1] == '\n'
    ensures var f := Frame(false, token, line, nl);
            |token| < |f| && f[|token| - 1] == '\n' && f[|f| - 1] == '\n'
  {
  }

  /**
    On a host whose NewLine is CR LF, a bare LF inside a line is not replaced,
    so the frame spans two physical lines.
   */
  lemma BareLfSurvivesOnCrLfHosts()
    ensures Frame(true, "", "a\nb", CrLf) == "a\nb\n"
  {
    assert "a\nb"[0] != '\r' && "\nb"[0] != '\r' && "b"[0] != '\r';
    assert "a\nb"[1..] == "\nb" && "\nb"[1..] == "b" && "b"[1..] == "";
  }

  /** String.TrimEnd('\n'): removes every trailing LF. */
  function TrimEnd(s: string): (r: string)
    ensures HasPrefix(s, r)
    ensures |r| == 0 || r[|r| - 1] != '\n'
    ensures forall i :: |r| <= i < |s| ==> s[i] == '\n'
    decreases |s|
  {
    if |s| > 0 && s[|s| - 1] == '\n' then TrimEnd(s[..|s| - 1]) else s
  }

  /** Trimming twice is trimming once. */
  lemma TrimEndIdempotent(s: string)
    ensures TrimEnd(TrimEnd(s)) == TrimEnd(s)
  {
  }

  /** Every rendered event in order, each trimmed. */
  function TrimEach(events: seq<string>): (r: seq<string>)
    ensures |r| == |events|
    ensures forall i :: 0 <= i < |events| ==> r[i] == TrimEnd(events[i])
  {
    if events == [] then [] else [TrimEnd(events[0])] + TrimEach(events[1..])
  }

  const RequestPrefix: string := "PUT /"
  const HostsSegment: string := "/hosts/"
  const RequestSuffix: string := "/?realtime=1 HTTP/1.1\r\n\r\n"

  /** The one-shot request line openConnection writes in HTTP PUT mode. */
  function Header(key: string, location: string): string {
    RequestPrefix + key + HostsSegment + location + RequestSuffix
  }

  /** Splits s before its first '/'. */
  function SplitAtSlash(s: string): (r: (string, string))
    ensures r.0 + r.1 == s
    ensures '/' !in r.0
    ensures r.1 == [] || r.1[0] == '/'
    decreases |s|
  {
    if |s| == 0 || s[0] == '/' then ("", s)
    else var t := SplitAtSlash(s[1..]); ([s[0]] + t.0, t.1)
  }

  lemma {:induction false} SplitAtSlashOfJoin(a: string, b: string)
    requires '/' !in a
    requires b == [] || b[0] == '/'
    ensures SplitAtSlash(a + b) == (a, b)
    decreases |a|
  {
    if |a| == 0 {
      assert a + b == b;
    } else {
      assert (a + b)[0] == a[0] && a[0] in a;
      assert (a + b)[1..] == a[1..] + b;
      SplitAtSlashOfJoin(a[1..], b);
      assert a == [a[0]] + a[1..];
    }
  }

  /**
    The inverse of Header: the account key and the location a request line
    was built from, or None when the text is not such a request line. With
    HeaderRoundTrip and ParseHeaderSound it shows that the request line
    determines the key and the location.
   */
  function ParseHeader(h: string): Option<(string, string)> {
    if !HasPrefix(h, RequestPrefix) then None
    else
      var (key, afterKey) := SplitAtSlash(h[|RequestPrefix|..]);
      if !HasPrefix(afterKey, HostsSegment) then None
      else
        var (location, afterLocation) := SplitAtSlash(afterKey[|HostsSegment|..]);
        if afterLocation == RequestSuffix then Some((key, location)) else None
  }

  /** The request line carries the key and the location recoverably when neither holds a '/'. */
  lemma HeaderRoundTrip(key: string, location: string)
    requires '/' !in key && '/' !in location
    ensures ParseHeader(Header(key, location)) == Some((key, location))
  {
    var tail := location + RequestSuffix;
    var afterKey := HostsSegment + tail;
    HeaderJoin(key, location);
    PrefixOfJoin(RequestPrefix, key + afterKey);
    SplitAtSlashOfJoin(key, afterKey);
    PrefixOfJoin(HostsSegment, tail);
    SplitAtSlashOfJoin(location, RequestSuffix);
  }

  /** a is a prefix of a + b, and what follows it is b. */
  lemma PrefixOfJoin(a: string, b: string)
    ensures HasPrefix(a + b, a) && (a + b)[|a|..] == b
  {
  }

  /** Whatever the parser accepts is exactly the request line of what it returns. */
  lemma ParseHeaderSound(h: string, key: string, location: string)
    requires ParseHeader(h) == Some((key, location))
    ensures h == Header(key, location)
    ensures '/' !in key && '/' !in location
  {
    var rest := h[|RequestPrefix|..];
    assert h == RequestPrefix + rest;
    var (k, afterKey) := SplitAtSlash(rest);
    var tail := afterKey[|HostsSegment|..];
    var (l, afterLocation) := SplitAtSlash(tail);
    assert k == key && l == location && afterLocation == RequestSuffix;
    assert afterKey == HostsSegment + tail;
    HeaderJoin(key, location);
  }

  /** The request line, grouped from the right. */
  lemma HeaderJoin(key: string, location: string)
    ensures Header(key, location) == RequestPrefix + (key + (HostsSegment + (location + RequestSuffix)))
  {
  }

  /**
    No frame is ever mistaken for the request line when the token holds no CR
    or LF: a frame's text before its final LF has no NewLine, the request
    line's has.
   */
  lemma FrameIsNeverHeader(httpPut: bool, token: string, line: string, nl: NewLine, key: string, location: string)
    requires '\n' !in token && '\r' !in token
    ensures Frame(httpPut, token, line, nl) != Header(key, location)
  {
    var h := Header(key, location);
    var f := Frame(httpPut, token, line, nl);
    var text := LineText(line, nl);
    var pre := if httpPut then "" else token;
    var n := |h|;
    assert f == pre + text + "\n";
    assert h[n - 3] == '\n' && h[n - 4] == '\r';
    if |f| == n {
      if |pre| > n - 4 {
        assert f[n - 4] == pre[n - 4];
      } else {
        var hb := h[|pre|..n - 1];
        var at := (if nl.Lf? then n - 3 else n - 4) - |pre|;
        assert hb[at..at + |nl.Text()|] == nl.Text();
        NoPatternAt(hb, nl.Text(), at);
        ReplacedHasNoPattern(line, nl.Text(), LineSeparator);
        assert f[|pre|..n - 1] == text;
      }
    }
  }

  /** An occurrence at a position is an occurrence. */
  lemma {:induction false} NoPatternAt(s: string, p: string, i: nat)
    requires i + |p| <= |s| && s[i..i + |p|] == p
    ensures Contains(s, p)
    decreases i
  {
    if i > 0 {
      assert s[1..][i - 1..i - 1 + |p|] == s[i..i + |p|];
      NoPatternAt(s[1..], p, i - 1);
    }
  }

  /** The end-to-end example in token mode: a UUID token and "hello". */
  lemma TokenFrameExample()
    ensures Frame(false, "11111111-1111-1111-1111-111111111111", "hello", Lf)
            == "11111111-1111-1111-1111-111111111111hello\n"
  {
    ContainsChar("hello", '\n');
    ReplaceIdentity("hello", "\n", LineSeparator);
  }

  /** The end-to-end example in HTTP PUT mode: the line after the request line. */
  lemma HttpFrameExample()
    ensures Frame(true, "", "world", Lf) == "world\n"
  {
    ContainsChar("world", '\n');
    ReplaceIdentity("world", "\n", LineSeparator);
  }
}
