/** The release script `scripts/update-version.js`: bump the patch component of
    the version string and rewrite the first `window.__APP_VERSION__ = '…'`
    assignment of the page. File reads and writes are the caller's. */
module VersionBump {
  import opened Text
  import opened Optional

  // ---------------------------------------------------------------------------
  // The version string

  /** `const [major, minor, patch] = v.split('.')` followed by
      `${major}.${minor}.${parseInt(patch) + 1}`. */
  function Bump(v: string): (r: string)
    ensures |r| >= 3
    ensures IsDigit(r[|r| - 1]) <==> |Split(v, '.')| >= 3 && ParseInt(Split(v, '.')[2]).Int?
  {
    BumpParts(Split(v, '.'))
  }

  /** The new version built from the pieces of the split. A missing component is
      `undefined`: it prints as "undefined", and `parseInt(undefined)` is NaN. */
  function BumpParts(parts: seq<string>): (r: string)
    requires |parts| >= 1
    ensures |r| >= 3
    ensures IsDigit(r[|r| - 1]) <==> |parts| >= 3 && ParseInt(parts[2]).Int?
    ensures !IsDigit(r[|r| - 1]) ==> r[|r| - 3..] == "NaN"
  {
    var minor := if |parts| >= 2 then parts[1] else "undefined";
    var patch := if |parts| >= 3 then ParseInt(parts[2]) else NaN;
    var last := NumToString(PlusOne(patch));
    var front := parts[0] + "." + minor + ".";
    EndsWith(front, last);
    front + last
  }

  lemma EndsWith(x: string, y: string)
    requires y != []
    ensures (x + y)[|x + y| - |y|..] == y && (x + y)[|x + y| - 1] == y[|y| - 1]
  {
  }

  lemma Reassociate(a: string, b: string, c: string)
    ensures a + "." + b + "." + c == a + ['.'] + (b + "." + c)
  {
  }

  /** Whatever the input, the text before the first dot is kept. */
  lemma BumpKeepsMajor(v: string)
    ensures Split(Bump(v), '.')[0] == Split(v, '.')[0]
  {
    var parts := Split(v, '.');
    var minor := if |parts| >= 2 then parts[1] else "undefined";
    var patch := if |parts| >= 3 then ParseInt(parts[2]) else NaN;
    var rest := minor + "." + NumToString(PlusOne(patch));
    Reassociate(parts[0], minor, NumToString(PlusOne(patch)));
    SplitHead(parts[0], rest, '.');
  }

  /** A version of exactly three components whose patch is a plain decimal number. */
  predicate IsVersion(v: string)
  {
    var parts := Split(v, '.');
    |parts| == 3 && parts[2] != [] && AllDigits(parts[2])
  }

  /** The patch number, as `parseInt` reads it. */
  function PatchOf(v: string): nat
    requires IsVersion(v)
  {
    DecimalSuccessor(Split(v, '.')[2]);
    ParseInt(Split(v, '.')[2]).value
  }

  /** Bumping reads only the first three pieces of the split: major and minor are
      copied as text and the patch is printed afresh from its value plus one. */
  lemma BumpFromParts(parts: seq<string>)
    requires |parts| >= 3 && parts[2] != [] && AllDigits(parts[2])
    ensures ParseInt(parts[2]).Int? && ParseInt(parts[2]).value >= 0
    ensures BumpParts(parts) == Join([parts[0], parts[1], NatToDecimal(ParseInt(parts[2]).value + 1)], '.')
    ensures BumpParts(parts) == parts[0] + "." + parts[1] + "." + NatToDecimal(ParseInt(parts[2]).value + 1)
  {
    DecimalSuccessor(parts[2]);
    JoinThree(parts[0], parts[1], NumToString(PlusOne(ParseInt(parts[2]))));
  }

  /** Bumping keeps a well-formed version well-formed, keeps major and minor,
      and raises the patch number by exactly one. */
  lemma BumpIncrementsPatch(v: string)
    requires IsVersion(v)
    ensures IsVersion(Bump(v))
    ensures Split(Bump(v), '.')[..2] == Split(v, '.')[..2]
    ensures PatchOf(Bump(v)) == PatchOf(v) + 1
  {
    var parts := Split(v, '.');
    BumpFromParts(parts);
    var n := ParseInt(parts[2]).value + 1;
    var bumped := [parts[0], parts[1], NatToDecimal(n)];
    assert '.' !in NatToDecimal(n) by {
      assert forall i :: 0 <= i < |NatToDecimal(n)| ==> IsDigit(NatToDecimal(n)[i]);
    }
    SplitJoin(bumped, '.');
    assert Split(Bump(v), '.') == bumped;
    ParsePrinted(n);
  }

  lemma JoinThree(a: string, b: string, c: string)
    ensures Join([a, b, c], '.') == a + "." + b + "." + c
  {
    assert [a, b, c][1..] == [b, c];
    assert [b, c][1..] == [c];
    assert Join([b, c], '.') == b + "." + c;
    assert Join([a, b, c], '.') == a + "." + (b + "." + c);
  }

  /** "1.2.07" becomes "1.2.8": the leading zero of the patch is lost. */
  lemma BumpDropsLeadingZero(v: string)
    requires v == "1.2.07"
    ensures Bump(v) == "1.2.8"
  {
    calc {
      Bump(v);
    == { SplitLeadingZero(v); }
      BumpParts(["1", "2", "07"]);
    == { PatchSevenRead("07", 7); BumpFromParts(["1", "2", "07"]); }
      "1" + "." + "2" + "." + NatToDecimal(7 + 1);
    == { PatchSevenRead("07", 7); }
      "1" + "." + "2" + "." + "8";
    ==
      "1.2.8";
    }
  }

  /** "1.2.3.4" becomes "1.2.4": the fourth component is dropped. */
  lemma BumpDropsExtraComponents(v: string)
    requires v == "1.2.3.4"
    ensures Bump(v) == "1.2.4"
  {
    calc {
      Bump(v);
    == { SplitFourParts(v); }
      BumpParts(["1", "2", "3", "4"]);
    == { PatchThreeRead("3", 3); BumpFromParts(["1", "2", "3", "4"]); }
      "1" + "." + "2" + "." + NatToDecimal(3 + 1);
    == { PatchThreeRead("3", 3); }
      "1" + "." + "2" + "." + "4";
    ==
      "1.2.4";
    }
  }

  lemma SplitFourParts(v: string)
    requires v == "1.2.3.4"
    ensures Split(v, '.') == ["1", "2", "3", "4"]
  {
    var parts := ["1", "2", "3", "4"];
    JoinThree("2", "3", "4");
    assert Join(parts, '.') == "1" + "." + Join(parts[1..], '.');
    assert parts[1..] == ["2", "3", "4"];
    assert "1" + "." + ("2" + "." + "3" + "." + "4") == v;
    SplitJoin(parts, '.');
  }

  lemma SplitLeadingZero(v: string)
    requires v == "1.2.07"
    ensures Split(v, '.') == ["1", "2", "07"]
  {
    JoinThree("1", "2", "07");
    assert "1" + "." + "2" + "." + "07" == v;
    SplitJoin(["1", "2", "07"], '.');
  }

  /** The patch "07" reads as 7, and 8 prints as "8". */
  lemma PatchSevenRead(p: string, n: nat)
    requires p == "07" && n == 7
    ensures p != [] && AllDigits(p)
    ensures ParseInt(p) == Int(n) && NatToDecimal(n + 1) == "8"
  {
    ParseDecimal(p);
    assert p[..1] == "0" && "0"[..0] == "";
    assert DigitChar(n + 1) == '8';
  }

  /** The patch "3" reads as 3, and 4 prints as "4". */
  lemma PatchThreeRead(p: string, n: nat)
    requires p == "3" && n == 3
    ensures p != [] && AllDigits(p)
    ensures ParseInt(p) == Int(n) && NatToDecimal(n + 1) == "4"
  {
    ParseDecimal(p);
    assert p[..0] == "";
    assert DigitChar(n + 1) == '4';
  }

  /** "1.2" becomes "1.2.NaN": with no patch component `parseInt` yields NaN. */
  lemma BumpWithoutPatch()
    ensures Bump("1.2") == "1.2.NaN"
  {
    assert ["1", "2"][1..] == ["2"];
    assert Join(["1", "2"], '.') == "1.2";
    SplitJoin(["1", "2"], '.');
  }

  // ---------------------------------------------------------------------------
  // The page rewrite: `html.replace(/window\.__APP_VERSION__\s*=\s*['"].*?['"]/, …)`

  const Marker: string := "window.__APP_VERSION__"

  predicate IsQuote(c: char)
  {
    c == '\'' || c == '"'
  }

  /** The characters `.` does not match. */
  predicate IsLineTerminator(c: char)
  {
    c == '\n' || c == '\r' || c == '\U{2028}' || c == '\U{2029}'
  }

  /** The literal part of the pattern, `window.__APP_VERSION__`, occurs at index `i`. */
  predicate MarkerAt(s: string, i: nat)
  {
    i + |Marker| <= |s| && forall k :: 0 <= k < |Marker| ==> s[i + k] == Marker[k]
  }

  /** `\s*` from index `i` of `s`: the first index at or after `i` that is not white space. */
  function SpaceEnd(s: string, i: nat): (j: nat)
    requires i <= |s|
    ensures i <= j <= |s|
    decreases |s| - i
  {
    if i < |s| && IsSpace(s[i]) then SpaceEnd(s, i + 1) else i
  }

  /** `.*?['"]` from index `i` of `s`: the index of the first quote at or after `i`,
      provided no line terminator comes before it. */
  function QuoteFrom(s: string, i: nat): (q: Option<nat>)
    requires i <= |s|
    ensures q.Some? ==> i <= q.value < |s|
    decreases |s| - i
  {
    if i == |s| then None
    else if IsQuote(s[i]) then Some(i)
    else if IsLineTerminator(s[i]) then None
    else QuoteFrom(s, i + 1)
  }

  /** The white space skipped is all white space, and it stops at the first other character. */
  lemma {:induction false} SpaceEndSkipsSpace(s: string, i: nat)
    requires i <= |s|
    ensures forall k :: i <= k < SpaceEnd(s, i) ==> IsSpace(s[k])
    ensures SpaceEnd(s, i) == |s| || !IsSpace(s[SpaceEnd(s, i)])
    decreases |s| - i
  {
    if i < |s| && IsSpace(s[i]) {
      SpaceEndSkipsSpace(s, i + 1);
    }
  }

  /** The lazy `.*?` stops at the first quote, and only if no line terminator
      comes first; otherwise there is no match from here. */
  lemma {:induction false} QuoteFromIsFirst(s: string, i: nat)
    requires i <= |s|
    ensures QuoteFrom(s, i).Some? ==>
              var q := QuoteFrom(s, i).value;
              IsQuote(s[q]) && forall k :: i <= k < q ==> !IsQuote(s[k]) && !IsLineTerminator(s[k])
    ensures QuoteFrom(s, i).None? <==>
              forall k :: i <= k < |s| && IsQuote(s[k]) ==> exists j :: i <= j < k && IsLineTerminator(s[j])
    decreases |s| - i
  {
    if i < |s| && !IsQuote(s[i]) && !IsLineTerminator(s[i]) {
      QuoteFromIsFirst(s, i + 1);
      if QuoteFrom(s, i).None? {
        forall k | i <= k < |s| && IsQuote(s[k])
          ensures exists j :: i <= j < k && IsLineTerminator(s[j])
        {
          var j :| i + 1 <= j < k && IsLineTerminator(s[j]);
        }
      } else {
        var q := QuoteFrom(s, i).value;
        assert !(i <= q - 1 && IsLineTerminator(s[q - 1]) && q - 1 < i + 1);
      }
    } else if i < |s| && IsLineTerminator(s[i]) {
      assert !IsQuote(s[i]);
    }
  }

  /** `\s*['"].*?['"]` from index `k` of `s`: the index just past the closing
      quote, if this part of the pattern matches there. */
  function QuotedValue(s: string, k: nat): (r: Option<nat>)
    requires k <= |s|
    ensures r.Some? ==> k < r.value <= |s|
  {
    var open := SpaceEnd(s, k);
    if open == |s| || !IsQuote(s[open]) then None
    else
      match QuoteFrom(s, open + 1)
      case None => None
      case Some(q) => Some(q + 1)
  }

  /** `\s*=\s*['"].*?['"]` from index `j` of `s`: the index just past the closing
      quote, if this part of the pattern matches there. The two `\s*` are greedy
      but each is followed by a character that is not white space, so they never
      give characters back. */
  function AssignTail(s: string, j: nat): (r: Option<nat>)
    requires j <= |s|
    ensures r.Some? ==> j < r.value <= |s|
  {
    var e := SpaceEnd(s, j);
    if e == |s| || s[e] != '=' then None else QuotedValue(s, e + 1)
  }

  /** The length of the match of the whole pattern that starts at index `i` of
      `s`, if any. */
  function MatchLength(s: string, i: nat): (r: Option<nat>)
    requires i <= |s|
    ensures r.Some? ==> |Marker| < r.value <= |s| - i
  {
    if !MarkerAt(s, i) then None
    else
      match AssignTail(s, i + |Marker|)
      case None => None
      case Some(e) => Some(e - i)
  }

  /** The leftmost match at or after `from`, as (start, end). */
  function FirstMatch(s: string, from: nat): (r: Option<(nat, nat)>)
    requires from <= |s|
    ensures r.Some? ==> from <= r.value.0 < r.value.1 <= |s|
    decreases |s| - from
  {
    match MatchLength(s, from)
    case Some(n) => Some((from, from + n))
    case None =>
      if from == |s| then None else FirstMatch(s, from + 1)
  }

  /** What is found is a match of the pattern, spanning exactly the part found. */
  lemma {:induction false} FirstMatchMatches(s: string, from: nat)
    requires from <= |s| && FirstMatch(s, from).Some?
    ensures var (a, b) := FirstMatch(s, from).value;
            MatchLength(s, a) == Some(b - a)
    decreases |s| - from
  {
    match MatchLength(s, from)
    case Some(n) =>
      assert FirstMatch(s, from) == Some((from, from + n));
    case None =>
      assert from < |s| && FirstMatch(s, from) == FirstMatch(s, from + 1);
      FirstMatchMatches(s, from + 1);
  }

  /** No match starts before the one found, and when none is found there is none
      at any position. */
  lemma {:induction false} FirstMatchIsLeftmost(s: string, from: nat, i: nat)
    requires from <= i <= |s|
    requires FirstMatch(s, from).Some? ==> i < FirstMatch(s, from).value.0
    ensures MatchLength(s, i).None?
    decreases |s| - from
  {
    if i > from {
      FirstMatchIsLeftmost(s, from + 1, i);
    }
  }

  // Matching looks only at the text from the start index on.

  lemma {:induction false} SpaceEndShift(s: string, x: string, y: string, j: nat, k: nat)
    requires s == x + y && j <= |y| && k == |x| + j
    ensures SpaceEnd(s, k) == |x| + SpaceEnd(y, j)
    decreases |y| - j
  {
    if j < |y| {
      assert s[k] == y[j];
      SpaceEndShift(s, x, y, j + 1, k + 1);
    }
  }

  lemma {:induction false} QuoteFromShift(s: string, x: string, y: string, j: nat, k: nat)
    requires s == x + y && j <= |y| && k == |x| + j
    ensures QuoteFrom(s, k).Some? == QuoteFrom(y, j).Some?
    ensures QuoteFrom(y, j).Some? ==> QuoteFrom(s, k).value == |x| + QuoteFrom(y, j).value
    decreases |y| - j
  {
    if j < |y| {
      assert s[k] == y[j];
      QuoteFromShift(s, x, y, j + 1, k + 1);
    }
  }

  lemma MarkerAtShift(s: string, x: string, y: string, j: nat, k: nat)
    requires s == x + y && j <= |y| && k == |x| + j
    ensures MarkerAt(s, k) == MarkerAt(y, j)
  {
    if MarkerAt(y, j) {
      forall n | 0 <= n < |Marker| ensures s[k + n] == Marker[n] {
        assert s[k + n] == y[j + n];
      }
    }
    if MarkerAt(s, k) {
      forall n | 0 <= n < |Marker| ensures y[j + n] == Marker[n] {
        assert s[k + n] == y[j + n];
      }
    }
  }

  lemma QuotedValueShift(s: string, x: string, y: string, j: nat, k: nat)
    requires s == x + y && j <= |y| && k == |x| + j
    ensures QuotedValue(s, k).Some? == QuotedValue(y, j).Some?
    ensures QuotedValue(y, j).Some? ==> QuotedValue(s, k).value == |x| + QuotedValue(y, j).value
  {
    SpaceEndShift(s, x, y, j, k);
    var open := SpaceEnd(y, j);
    if open < |y| {
      assert s[|x| + open] == y[open];
      if IsQuote(y[open]) {
        QuoteFromShift(s, x, y, open + 1, |x| + open + 1);
      }
    }
  }

  lemma AssignTailShift(s: string, x: string, y: string, j: nat, k: nat)
    requires s == x + y && j <= |y| && k == |x| + j
    ensures AssignTail(s, k).Some? == AssignTail(y, j).Some?
    ensures AssignTail(y, j).Some? ==> AssignTail(s, k).value == |x| + AssignTail(y, j).value
  {
    SpaceEndShift(s, x, y, j, k);
    var e := SpaceEnd(y, j);
    if e < |y| {
      assert s[|x| + e] == y[e];
      if y[e] == '=' {
        QuotedValueShift(s, x, y, e + 1, |x| + e + 1);
      }
    }
  }

  /** Text put in front does not change a match further on. */
  lemma MatchLengthShift(s: string, x: string, y: string, j: nat, k: nat)
    requires s == x + y && j <= |y| && k == |x| + j
    ensures MatchLength(s, k) == MatchLength(y, j)
  {
    MarkerAtShift(s, x, y, j, k);
    if !MarkerAt(y, j) {
      assert MatchLength(y, j) == None && MatchLength(s, k) == None;
    } else {
      AssignTailShift(s, x, y, j + |Marker|, k + |Marker|);
      var ty, ts := AssignTail(y, j + |Marker|), AssignTail(s, k + |Marker|);
      assert MatchLength(y, j) == if ty.Some? then Some(ty.value - j) else None;
      assert MatchLength(s, k) == if ts.Some? then Some(ts.value - k) else None;
    }
  }

  /** `html.replace(pattern, rep)` with a pattern that has no `g` flag: only the
      leftmost match is replaced. */
  function ReplaceFirst(s: string, rep: string): string
  {
    match FirstMatch(s, 0)
    case None => s
    case Some((a, b)) => s[..a] + rep + s[b..]
  }

  /** The text that replaces the assignment. */
  function Assignment(version: string): string
  {
    Marker + " = '" + version + "'"
  }

  /** Two texts that end the same way match the same way in that ending. */
  lemma SameSuffixMatch(s: string, p: string, r: string, q: string, rest: string, j: nat, ks: nat, kr: nat)
    requires s == p + rest && r == q + rest && j <= |rest|
    requires ks == |p| + j && kr == |q| + j
    ensures MatchLength(r, kr) == MatchLength(s, ks)
  {
    MatchLengthShift(r, q, rest, j, kr);
    MatchLengthShift(s, p, rest, j, ks);
  }

  /** The replaced text is the page with the leftmost match cut out and `rep` put in. */
  lemma ReplaceFirstParts(s: string, rep: string, a: nat, b: nat)
    requires FirstMatch(s, 0) == Some((a, b))
    ensures a < b <= |s|
    ensures ReplaceFirst(s, rep) == (s[..a] + rep) + s[b..]
  {
  }

  /** Every assignment after the first survives the rewrite: a match at `i` in the
      page `s` is a match of the same length at the shifted position `k` of the
      rewritten page `r`. */
  lemma LaterAssignmentsKept(s: string, rep: string, a: nat, b: nat, i: nat, r: string, k: nat)
    requires FirstMatch(s, 0) == Some((a, b)) && b <= i <= |s|
    requires r == ReplaceFirst(s, rep) && k == i - b + a + |rep|
    ensures k <= |r| && MatchLength(r, k) == MatchLength(s, i)
  {
    ReplaceFirstParts(s, rep, a, b);
    var q, rest := s[..a] + rep, s[b..];
    assert s == s[..b] + rest;
    SameSuffixMatch(s, s[..b], r, q, rest, i - b, i, k);
  }

  /** The assignment written for a version without quotes or line breaks is itself
      a match of the pattern, covering exactly the written text. */
  lemma AssignmentMatches(version: string)
    requires forall k :: 0 <= k < |version| ==> !IsQuote(version[k]) && !IsLineTerminator(version[k])
    ensures MatchLength(Assignment(version), 0) == Some(|Assignment(version)|)
  {
    var t := Assignment(version);
    var m := |Marker|;
    assert forall k :: 0 <= k < m ==> t[0 + k] == Marker[k];
    assert t[m] == ' ' && t[m + 1] == '=' && t[m + 2] == ' ' && t[m + 3] == '\'';
    assert SpaceEnd(t, m) == m + 1;
    assert SpaceEnd(t, m + 2) == m + 3;
    QuoteFromIsFirst(t, m + 4);
    forall k | m + 4 <= k < |t| - 1
      ensures !IsQuote(t[k]) && !IsLineTerminator(t[k])
    {
      assert t[k] == version[k - m - 4];
    }
    assert IsQuote(t[|t| - 1]);
    assert QuoteFrom(t, m + 4).Some?;
    assert QuoteFrom(t, m + 4) == Some(|t| - 1);
    assert QuotedValue(t, m + 2) == Some(|t|);
    assert AssignTail(t, m) == Some(|t|);
  }

  // ---------------------------------------------------------------------------
  // The script

  /** The script's effect on the version field and on the page text. */
  method UpdateVersion(versionField: string, html: string) returns (version: string, page: string)
    ensures version == Bump(versionField)
    ensures FirstMatch(html, 0).None? ==> page == html
    ensures FirstMatch(html, 0).Some? ==>
              var (a, b) := FirstMatch(html, 0).value;
              page == html[..a] + Assignment(version) + html[b..]
  {
    version := Bump(versionField);
    page := html;
    page := ReplaceFirst(page, Assignment(version));
  }
}
