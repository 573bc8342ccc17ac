/**
 * Decoder for the WebDynpro event encoding (src/webdynpro/event.rs).
 *
 * Decoding runs in two passes. The structural pass replaces the five fixed
 * escapes ~E001 .. ~E005 by newline, '{', '}', ':' and ','; the source keeps
 * them in a HashMap and applies `str::replace` once per entry, in the map's
 * unspecified iteration order. The hex pass then scans left to right for
 * '~' followed by four hexadecimal digits and replaces each match by the
 * character with that code point, keeping the match verbatim when the code
 * point is a surrogate.
 */
module Event {

  import opened Wrappers

  /** The structural escapes, in the order the source inserts them into its map. */
  const Escapes: seq<(string, char)> :=
    [("~E001", '\n'), ("~E002", '{'), ("~E003", '}'), ("~E004", ':'), ("~E005", ',')]

  /** Indices of all five entries of the escape table. */
  const AllEscapes: set<nat> := {0, 1, 2, 3, 4}

  /** The characters the structural escapes stand for. */
  predicate IsStructuralChar(c: char) {
    c == '\n' || c == '{' || c == '}' || c == ':' || c == ','
  }

  /** The entry of the escape table that `s` starts with, if any. */
  function EscapeAt(s: string): Option<nat> {
    if |s| >= 5 && s[0] == '~' && s[1] == 'E' && s[2] == '0' && s[3] == '0' && '1' <= s[4] <= '5'
    then Some(s[4] as int - '1' as int)
    else None
  }

  /** EscapeAt names the entry of the table that `s` starts with, and finds none when there is none. */
  lemma EscapeAtPrefix(s: string)
    ensures forall k :: 0 <= k < |Escapes| ==> (EscapeAt(s) == Some(k) <==> Escapes[k].0 <= s)
    ensures EscapeAt(s).None? <==> forall k :: 0 <= k < |Escapes| ==> !(Escapes[k].0 <= s)
  {
    if EscapeAt(s).Some? {
      assert s[..5] == Escapes[s[4] as int - '1' as int].0;
    }
  }

  /**
   * Rust's `str::replace`: every occurrence of `pat`, found left to right
   * without overlap, is replaced by `rep`; the replacement is not rescanned.
   */
  function ReplaceAll(s: string, pat: string, rep: string): (r: string)
    requires |pat| > 0
    decreases |s|
  {
    if s == [] then []
    else if pat <= s then rep + ReplaceAll(s[|pat|..], pat, rep)
    else [s[0]] + ReplaceAll(s[1..], pat, rep)
  }

  /**
   * The text after the structural escapes whose table indices are in `done`
   * have been replaced, scanning left to right.
   */
  function StructuralPass(s: string, done: set<nat>): string
    decreases |s|
  {
    if s == [] then []
    else
      var e := EscapeAt(s);
      if e.Some? && e.value in done then [Escapes[e.value].1] + StructuralPass(s[5..], done)
      else [s[0]] + StructuralPass(s[1..], done)
  }

  /** The text after all five structural escapes have been replaced. */
  function StructuralDecoded(s: string): string {
    StructuralPass(s, AllEscapes)
  }

  predicate IsHexDigit(c: char) {
    ('0' <= c <= '9') || ('A' <= c <= 'F') || ('a' <= c <= 'f')
  }

  function HexDigitValue(c: char): (v: nat)
    requires IsHexDigit(c)
    ensures v < 16
  {
    if '0' <= c <= '9' then c as int - '0' as int
    else if 'A' <= c <= 'F' then c as int - 'A' as int + 10
    else c as int - 'a' as int + 10
  }

  /** The value of four hexadecimal digits, most significant first (`u32::from_str_radix(_, 16)`). */
  function HexValue(h: string): (v: nat)
    requires |h| == 4 && forall i :: 0 <= i < 4 ==> IsHexDigit(h[i])
    ensures v < 0x1_0000
  {
    ((HexDigitValue(h[0]) * 16 + HexDigitValue(h[1])) * 16 + HexDigitValue(h[2])) * 16 + HexDigitValue(h[3])
  }

  /** Code points `char::from_u32` accepts: every value up to 0x10FFFF except the surrogates. */
  predicate IsScalar(v: nat) {
    v < 0xD800 || 0xE000 <= v < 0x11_0000
  }

  /** Whether `s` starts with a match of the pattern `~([0-9A-Fa-f]{4})`. */
  predicate HexEscapeAt(s: string) {
    |s| >= 5 && s[0] == '~' && IsHexDigit(s[1]) && IsHexDigit(s[2]) && IsHexDigit(s[3]) && IsHexDigit(s[4])
  }

  /**
   * What the closure given to `replace_all` returns for the four digits of a
   * match: the character with that code point, or the match itself when the
   * code point is not a Unicode scalar value.
   */
  function HexReplacement(h: string): string {
    if |h| == 4 && IsHexDigit(h[0]) && IsHexDigit(h[1]) && IsHexDigit(h[2]) && IsHexDigit(h[3]) then
      var v := HexValue(h);
      if IsScalar(v) then [v as char] else "~" + h
    else "~" + h
  }

  /**
   * `Regex::replace_all` with the pattern `~([0-9A-Fa-f]{4})`: the matches,
   * found left to right without overlap, are replaced by what `replace`
   * gives for their digits; a replacement is not rescanned.
   */
  function ReplaceHexMatches(s: string, replace: string -> string): string
    decreases |s|
  {
    if s == [] then []
    else if HexEscapeAt(s) then replace(s[1..5]) + ReplaceHexMatches(s[5..], replace)
    else [s[0]] + ReplaceHexMatches(s[1..], replace)
  }

  /** The hex pass of the decoder. */
  function HexPass(s: string): string {
    ReplaceHexMatches(s, HexReplacement)
  }

  /** `decode_sap_event_encoding`, independent of the map's iteration order. */
  function Decoded(encoded: string): string {
    HexPass(StructuralDecoded(encoded))
  }

  /** An iteration order of the five-entry map: each entry exactly once. */
  predicate IsEntryOrder(order: seq<nat>) {
    && |order| == |Escapes|
    && (forall i :: 0 <= i < |order| ==> order[i] < |Escapes|)
    && (forall i, j :: 0 <= i < j < |order| ==> order[i] != order[j])
    && (forall k :: 0 <= k < |Escapes| ==> k in order)
  }

  /**
   * `decode_sap_event_encoding`: the structural loop visits the map's entries
   * in `order` and reassigns `result` once per entry; the hex pass follows.
   * Whatever the order, the result is `Decoded(encoded)`.
   */
  method Decode(encoded: string, order: seq<nat>) returns (result: string)
    requires IsEntryOrder(order)
    ensures result == Decoded(encoded)
  {
    result := encoded;
    StructuralPassNothing(encoded);
    ghost var done: set<nat> := {};
    for i := 0 to |order|
      invariant done == set j | 0 <= j < i :: order[j]
      invariant result == StructuralPass(encoded, done)
    {
      var (key, value) := Escapes[order[i]];
      ReplaceEscape(encoded, done, order[i]);
      result := ReplaceAll(result, key, [value]);
      done := done + {order[i]};
    }
    assert done == AllEscapes by {
      forall k | 0 <= k < |Escapes| ensures k in done {
        assert k in order;
        var j :| 0 <= j < |order| && order[j] == k;
      }
    }
    result := HexPass(result);
  }

  // ---------------------------------------------------------------------
  // Lemmas about the structural pass

  /** With no escape enabled the structural pass is the identity. */
  lemma {:induction false} StructuralPassNothing(s: string)
    ensures StructuralPass(s, {}) == s
    decreases |s|
  {
    if s != [] {
      StructuralPassNothing(s[1..]);
    }
  }

  /** A character other than '~' is copied and the scan moves on by one. */
  lemma StructuralPassPlainHead(s: string, done: set<nat>)
    requires s != [] && s[0] != '~'
    ensures StructuralPass(s, done) == [s[0]] + StructuralPass(s[1..], done)
  {
  }

  /**
   * A prefix of the pass's output that holds no structural character was
   * copied from the input unchanged.
   */
  lemma {:induction false} StructuralPassPlainPrefix(s: string, done: set<nat>, p: string)
    requires p <= StructuralPass(s, done)
    requires forall i :: 0 <= i < |p| ==> !IsStructuralChar(p[i])
    ensures p <= s
    decreases |s|
  {
    if p != [] && s != [] {
      var e := EscapeAt(s);
      assert !IsStructuralChar(p[0]);
      assert !(e.Some? && e.value in done);
      var rest := StructuralPass(s[1..], done);
      assert StructuralPass(s, done) == [s[0]] + rest;
      assert p[1..] <= rest;
      StructuralPassPlainPrefix(s[1..], done, p[1..]);
      assert p == [s[0]] + p[1..];
    }
  }

  /**
   * When `s` starts with no escape that `done + {k}` replaces, the output of
   * the pass over `done` does not start with escape `k` either.
   */
  lemma NoEscapeCreated(s: string, done: set<nat>, k: nat)
    requires k < |Escapes| && s != []
    requires EscapeAt(s) != Some(k)
    requires !(EscapeAt(s).Some? && EscapeAt(s).value in done)
    ensures !(Escapes[k].0 <= StructuralPass(s, done))
  {
    EscapeOnlyFromInput(s, done, k);
    EscapeAtPrefix(s);
  }

  /** When the pass copies the first character, an escape its output starts with was in the input already. */
  lemma EscapeOnlyFromInput(s: string, done: set<nat>, k: nat)
    requires k < |Escapes| && s != []
    requires !(EscapeAt(s).Some? && EscapeAt(s).value in done)
    ensures Escapes[k].0 <= StructuralPass(s, done) ==> Escapes[k].0 <= s
  {
    var pat := Escapes[k].0;
    EscapeShape(k);
    var rest := StructuralPass(s[1..], done);
    var out := [s[0]] + rest;
    assert StructuralPass(s, done) == out;
    if pat <= out {
      var tail := pat[1..];
      forall i | 0 <= i < |tail|
        ensures tail[i] == rest[i] && !IsStructuralChar(tail[i])
      {
        assert tail[i] == pat[i + 1] == out[i + 1];
      }
      StructuralPassPlainPrefix(s[1..], done, tail);
      assert pat == [s[0]] + tail;
      PrefixCons(s[0], tail, s[1..]);
      assert s == [s[0]] + s[1..];
    }
  }

  /** Each structural escape is '~' and four characters none of which is structural. */
  lemma EscapeShape(k: nat)
    requires k < |Escapes|
    ensures |Escapes[k].0| == 5 && Escapes[k].0[0] == '~'
    ensures forall i :: 1 <= i < 5 ==> !IsStructuralChar(Escapes[k].0[i]) && Escapes[k].0[i] != '~'
  {
  }

  lemma PrefixCons(c: char, p: string, t: string)
    requires p <= t
    ensures [c] + p <= [c] + t
  {
  }

  /** A character other than '~' at position i is copied verbatim by the pass over the text from i. */
  lemma StructuralPassPlainAt(s: string, i: nat, done: set<nat>)
    requires i < |s| && s[i] != '~'
    ensures StructuralPass(s[i..], done) == [s[i]] + StructuralPass(s[i + 1..], done)
  {
    StructuralPassPlainHead(s[i..], done);
    assert s[i..][1..] == s[i + 1..];
  }

  /** An escape not yet replaced is copied verbatim by the pass. */
  lemma UnreplacedEscapeCopied(s: string, done: set<nat>, k: nat)
    requires k < |Escapes| && Escapes[k].0 <= s
    ensures StructuralPass(s, done) == Escapes[k].0 + StructuralPass(s[5..], done) || k in done
  {
    if k !in done {
      var pat := Escapes[k].0;
      EscapeAtPrefix(s);
      EscapeShape(k);
      assert s[1] == pat[1] && s[2] == pat[2] && s[3] == pat[3] && s[4] == pat[4];
      StructuralPassPlainAt(s, 1, done);
      StructuralPassPlainAt(s, 2, done);
      StructuralPassPlainAt(s, 3, done);
      StructuralPassPlainAt(s, 4, done);
      assert pat == [s[0], s[1], s[2], s[3], s[4]];
      calc {
        StructuralPass(s, done);
        [s[0]] + StructuralPass(s[1..], done);
        [s[0]] + ([s[1]] + ([s[2]] + ([s[3]] + ([s[4]] + StructuralPass(s[5..], done)))));
        [s[0], s[1], s[2], s[3], s[4]] + StructuralPass(s[5..], done);
      }
    }
  }

  /**
   * Replacing one more escape after the others amounts to a single scan that
   * replaces them all: no escape overlaps another, and no replacement
   * character can be part of an escape.
   */
  lemma {:induction false} ReplaceEscape(s: string, done: set<nat>, k: nat)
    requires k < |Escapes| && k !in done
    ensures ReplaceAll(StructuralPass(s, done), Escapes[k].0, [Escapes[k].1]) == StructuralPass(s, done + {k})
    decreases |s|
  {
    var pat, c := Escapes[k].0, Escapes[k].1;
    var t := StructuralPass(s, done);
    if s != [] {
      var e := EscapeAt(s);
      if e.Some? && e.value in done {
        var rest := StructuralPass(s[5..], done);
        assert t == [Escapes[e.value].1] + rest;
        assert t[0] != '~' && pat[0] == '~';
        assert t[1..] == rest;
        ReplaceEscape(s[5..], done, k);
      } else if e == Some(k) {
        var rest := StructuralPass(s[5..], done);
        UnreplacedEscapeCopied(s, done, k);
        assert t == pat + rest;
        assert t[|pat|..] == rest;
        ReplaceEscape(s[5..], done, k);
      } else {
        var rest := StructuralPass(s[1..], done);
        assert t == [s[0]] + rest;
        NoEscapeCreated(s, done, k);
        assert t[1..] == rest;
        ReplaceEscape(s[1..], done, k);
      }
    }
  }

  // ---------------------------------------------------------------------
  // Text without '~'

  /** The structural pass leaves text without '~' unchanged. */
  lemma {:induction false} StructuralPassNoTilde(s: string, done: set<nat>)
    requires '~' !in s
    ensures StructuralPass(s, done) == s
    decreases |s|
  {
    if s != [] {
      assert s[0] in s;
      assert forall c :: c in s[1..] ==> c in s;
      StructuralPassNoTilde(s[1..], done);
    }
  }

  lemma {:induction false} ReplaceHexMatchesNoTilde(s: string, replace: string -> string)
    requires '~' !in s
    ensures ReplaceHexMatches(s, replace) == s
    decreases |s|
  {
    if s != [] {
      assert s[0] in s;
      assert forall c :: c in s[1..] ==> c in s;
      ReplaceHexMatchesNoTilde(s[1..], replace);
    }
  }

  /** The hex pass leaves text without '~' unchanged. */
  lemma HexPassNoTilde(s: string)
    requires '~' !in s
    ensures HexPass(s) == s
  {
    ReplaceHexMatchesNoTilde(s, HexReplacement);
  }

  /** An input containing no '~' decodes to itself. */
  lemma NoTildeUnchanged(s: string)
    requires '~' !in s
    ensures Decoded(s) == s
  {
    StructuralPassNoTilde(s, AllEscapes);
    HexPassNoTilde(s);
  }

  // ---------------------------------------------------------------------
  // Matches of the two passes

  /**
   * Each structural escape is replaced by its character, and decoding
   * continues right after it.
   */
  lemma StructuralEscapeDecoded(k: nat, rest: string)
    requires k < |Escapes|
    ensures StructuralDecoded(Escapes[k].0 + rest) == [Escapes[k].1] + StructuralDecoded(rest)
  {
    var s := Escapes[k].0 + rest;
    assert Escapes[k].0 <= s;
    assert s[5..] == rest;
  }

  /**
   * '~' and four hexadecimal digits become the character with that code
   * point, or stay as they are when the code point is a surrogate; the scan
   * resumes after the match, so the produced text is never rescanned.
   */
  lemma HexEscapeDecoded(h: string, rest: string)
    requires |h| == 4 && forall i :: 0 <= i < 4 ==> IsHexDigit(h[i])
    ensures IsScalar(HexValue(h)) ==> HexPass("~" + h + rest) == [HexValue(h) as char] + HexPass(rest)
    ensures !IsScalar(HexValue(h)) ==> HexPass("~" + h + rest) == "~" + h + HexPass(rest)
  {
    var s := "~" + h + rest;
    assert s[1..5] == h && s[..5] == "~" + h && s[5..] == rest;
  }

  /** A '~' that does not start a match is copied and the scan moves on by one. */
  lemma HexPassNoMatch(s: string)
    requires s != [] && !HexEscapeAt(s)
    ensures HexPass(s) == [s[0]] + HexPass(s[1..])
  {
  }

  // ---------------------------------------------------------------------
  // Decoding a concatenation piece by piece

  /** No '~' among the last four characters: no match can start in `s` and end after it. */
  predicate Closed(s: string) {
    forall i :: 0 <= i < |s| && |s| - 4 <= i ==> s[i] != '~'
  }

  lemma ClosedAppend(a: string, b: string)
    requires Closed(a) && Closed(b)
    ensures Closed(a + b)
  {
    if |b| < 4 {
      assert forall i :: 0 <= i < |b| ==> b[i] != '~';
    }
  }

  /** What follows a closed text is not part of the escape it starts with. */
  lemma EscapeAtAppend(a: string, b: string)
    requires Closed(a) && a != []
    ensures EscapeAt(a + b) == EscapeAt(a)
    ensures EscapeAt(a).Some? ==> |a| >= 5
  {
    assert a[0] == '~' ==> |a| >= 5;
    if |a| >= 5 {
      assert (a + b)[..5] == a[..5];
    }
  }

  lemma ClosedSuffix(a: string, k: nat)
    requires Closed(a) && k <= |a|
    ensures Closed(a[k..])
  {
    assert forall i :: 0 <= i < |a| - k ==> a[k..][i] == a[k + i];
  }

  lemma {:induction false} StructuralPassAppend(a: string, b: string, done: set<nat>)
    requires Closed(a)
    ensures StructuralPass(a + b, done) == StructuralPass(a, done) + StructuralPass(b, done)
    decreases |a|
  {
    if a == [] {
      assert a + b == b;
    } else {
      var s := a + b;
      EscapeAtAppend(a, b);
      var e := EscapeAt(a);
      if e.Some? && e.value in done {
        var c := Escapes[e.value].1;
        ClosedSuffix(a, 5);
        assert s[5..] == a[5..] + b;
        StructuralPassAppend(a[5..], b, done);
        calc {
          StructuralPass(s, done);
          [c] + StructuralPass(s[5..], done);
          [c] + (StructuralPass(a[5..], done) + StructuralPass(b, done));
          ([c] + StructuralPass(a[5..], done)) + StructuralPass(b, done);
          StructuralPass(a, done) + StructuralPass(b, done);
        }
      } else {
        ClosedSuffix(a, 1);
        assert s[1..] == a[1..] + b;
        StructuralPassAppend(a[1..], b, done);
        calc {
          StructuralPass(s, done);
          [s[0]] + StructuralPass(s[1..], done);
          [a[0]] + (StructuralPass(a[1..], done) + StructuralPass(b, done));
          ([a[0]] + StructuralPass(a[1..], done)) + StructuralPass(b, done);
          StructuralPass(a, done) + StructuralPass(b, done);
        }
      }
    }
  }

  /** What follows a closed text is not part of the hex escape it starts with. */
  lemma HexEscapeAtAppend(a: string, b: string)
    requires Closed(a) && a != []
    ensures HexEscapeAt(a + b) == HexEscapeAt(a)
    ensures HexEscapeAt(a) ==> (a + b)[1..5] == a[1..5]
  {
    assert a[0] == '~' ==> |a| >= 5;
    if |a| >= 5 {
      assert (a + b)[..5] == a[..5];
      assert (a + b)[1..5] == a[1..5];
    }
  }

  lemma {:induction false} ReplaceHexMatchesAppend(a: string, b: string, replace: string -> string)
    requires Closed(a)
    ensures ReplaceHexMatches(a + b, replace) == ReplaceHexMatches(a, replace) + ReplaceHexMatches(b, replace)
    decreases |a|
  {
    if a == [] {
      assert a + b == b;
    } else {
      var s := a + b;
      HexEscapeAtAppend(a, b);
      var n := if HexEscapeAt(a) then 5 else 1;
      var m := if HexEscapeAt(a) then replace(a[1..5]) else [a[0]];
      ClosedSuffix(a, n);
      assert s[n..] == a[n..] + b;
      ReplaceHexMatchesAppend(a[n..], b, replace);
      calc {
        ReplaceHexMatches(s, replace);
        m + ReplaceHexMatches(s[n..], replace);
        m + (ReplaceHexMatches(a[n..], replace) + ReplaceHexMatches(b, replace));
        (m + ReplaceHexMatches(a[n..], replace)) + ReplaceHexMatches(b, replace);
        ReplaceHexMatches(a, replace) + ReplaceHexMatches(b, replace);
      }
    }
  }

  lemma HexPassAppend(a: string, b: string)
    requires Closed(a)
    ensures HexPass(a + b) == HexPass(a) + HexPass(b)
  {
    ReplaceHexMatchesAppend(a, b, HexReplacement);
  }

  /** Text that can be decoded on its own: no match crosses its end before or after the structural pass. */
  predicate Isolated(s: string) {
    Closed(s) && Closed(StructuralDecoded(s))
  }

  /** Two isolated pieces decode independently of each other. */
  lemma DecodedAppend(a: string, b: string)
    requires Isolated(a) && Isolated(b)
    ensures Isolated(a + b)
    ensures Decoded(a + b) == Decoded(a) + Decoded(b)
  {
    StructuralPassAppend(a, b, AllEscapes);
    HexPassAppend(StructuralDecoded(a), StructuralDecoded(b));
    ClosedAppend(a, b);
    ClosedAppend(StructuralDecoded(a), StructuralDecoded(b));
  }

  lemma PlainPiece(t: string)
    requires '~' !in t
    ensures Isolated(t) && Decoded(t) == t
  {
    StructuralPassNoTilde(t, AllEscapes);
    NoTildeUnchanged(t);
  }

  lemma StructuralPiece(k: nat)
    requires k < |Escapes|
    ensures Isolated(Escapes[k].0) && Decoded(Escapes[k].0) == [Escapes[k].1]
  {
    StructuralEscapeDecoded(k, []);
    assert Escapes[k].0 + [] == Escapes[k].0;
    PlainPiece([Escapes[k].1]);
  }

  lemma HexPiece(h: string)
    requires |h| == 4 && forall i :: 0 <= i < 4 ==> IsHexDigit(h[i])
    requires EscapeAt("~" + h) == None && IsScalar(HexValue(h))
    ensures Isolated("~" + h) && Decoded("~" + h) == [HexValue(h) as char]
  {
    var s := "~" + h;
    assert '~' !in h;
    assert s[1..] == h;
    assert StructuralPass(s, AllEscapes) == [s[0]] + StructuralPass(h, AllEscapes);
    StructuralPassNoTilde(h, AllEscapes);
    HexEscapeDecoded(h, []);
    assert s + [] == s;
  }
}
