/** `re.findall(r'\b[A-Z][a-z]*\b|\b[a-z]+(?:\s+[a-z]+)*\b', text)` as Python's
    backtracking engine evaluates it on a `str`: `[A-Z]` and `[a-z]` are ASCII
    classes, `\s` is `str.isspace`, and `\b` sits between a word character
    (`str.isalnum()` or `_`) and a non-word character or an end of the text.

    Because ASCII letters are word characters, no position strictly inside a run
    of letters is a `\b`. Backtracking therefore never succeeds with a shorter
    `[a-z]*`, `[a-z]+` or `\s+` than the greedy one, and the only choice left is
    how many `(?:\s+[a-z]+)` groups to keep: the engine keeps the most groups
    whose end is a `\b`. */
module Pattern {

  import opened Wrappers
  import opened Text

  /** A character of the class `\w`. Non-ASCII alphanumerics are decided by the runtime. */
  predicate IsWordChar(c: char, isNonAsciiAlnum: char -> bool)
  {
    IsAsciiUpper(c) || IsAsciiLower(c) || IsAsciiDigit(c) || c == '_'
    || (c as int >= 0x80 && isNonAsciiAlnum(c))
  }

  /** `\b` at position `i` of `s`. */
  predicate Boundary(s: string, i: nat, isNonAsciiAlnum: char -> bool)
    requires i <= |s|
  {
    var before := 0 < i && IsWordChar(s[i - 1], isNonAsciiAlnum);
    var after := i < |s| && IsWordChar(s[i], isNonAsciiAlnum);
    before != after
  }

  /** End of the greedy `[a-z]*` that starts at `i`. */
  function LowerRunEnd(s: string, i: nat): (e: nat)
    requires i <= |s|
    ensures i <= e <= |s|
    ensures forall k :: i <= k < e ==> IsAsciiLower(s[k])
    ensures e == |s| || !IsAsciiLower(s[e])
    decreases |s| - i
  {
    if i < |s| && IsAsciiLower(s[i]) then LowerRunEnd(s, i + 1) else i
  }

  /** One more `(?:\s+[a-z]+)` group after position `p`, if the text has one. */
  function NextGroupEnd(s: string, p: nat): (r: Option<nat>)
    requires p <= |s|
    ensures r.Some? ==> p < r.value <= |s|
  {
    var q := SpaceRunEnd(s, p);
    if p < q < |s| && IsAsciiLower(s[q]) then Some(LowerRunEnd(s, q)) else None
  }

  /** Among the group ends reachable from `p` (including `p`), the furthest one that is a `\b`. */
  function FurthestBoundaryEnd(s: string, p: nat, isNonAsciiAlnum: char -> bool): (r: Option<nat>)
    requires p <= |s|
    ensures r.Some? ==> p <= r.value <= |s| && Boundary(s, r.value, isNonAsciiAlnum)
    decreases |s| - p
  {
    var here := if Boundary(s, p, isNonAsciiAlnum) then Some(p) else None;
    match NextGroupEnd(s, p)
    case None => here
    case Some(q) =>
      match FurthestBoundaryEnd(s, q, isNonAsciiAlnum)
      case Some(e) => Some(e)
      case None => here
  }

  /** The end of the pattern's match starting exactly at `i`, if there is one. */
  function MatchAt(s: string, i: nat, isNonAsciiAlnum: char -> bool): (r: Option<nat>)
    requires i < |s|
    ensures r.Some? ==> i < r.value <= |s|
    ensures r.Some? ==> IsAsciiUpper(s[i]) || IsAsciiLower(s[i])
  {
    if !Boundary(s, i, isNonAsciiAlnum) then None
    else if IsAsciiUpper(s[i]) then
      // \b[A-Z][a-z]*\b
      var e := LowerRunEnd(s, i + 1);
      if Boundary(s, e, isNonAsciiAlnum) then Some(e) else None
    else if IsAsciiLower(s[i]) then
      // \b[a-z]+(?:\s+[a-z]+)*\b
      FurthestBoundaryEnd(s, LowerRunEnd(s, i), isNonAsciiAlnum)
    else None
  }

  /** The matches found by scanning from position `i`: after a match the scan resumes at its end. */
  function Scan(s: string, i: nat, isNonAsciiAlnum: char -> bool): (r: seq<string>)
    requires i <= |s|
    ensures forall k :: 0 <= k < |r| ==> r[k] != [] && (IsAsciiUpper(r[k][0]) || IsAsciiLower(r[k][0]))
    ensures forall k :: 0 <= k < |r| ==> Occurs(s, r[k])
    decreases |s| - i
  {
    if i == |s| then []
    else
      match MatchAt(s, i, isNonAsciiAlnum)
      case Some(j) =>
        assert OccursAt(s, s[i..j], i);
        [s[i..j]] + Scan(s, j, isNonAsciiAlnum)
      case None => Scan(s, i + 1, isNonAsciiAlnum)
  }

  /** `re.findall(...)`: every candidate is a non-empty piece of the text that starts with an ASCII letter. */
  function FindAll(s: string, isNonAsciiAlnum: char -> bool): (r: seq<string>)
    ensures forall k :: 0 <= k < |r| ==> r[k] != [] && (IsAsciiUpper(r[k][0]) || IsAsciiLower(r[k][0]))
    ensures forall k :: 0 <= k < |r| ==> Contains(s, r[k])
  {
    var r := Scan(s, 0, isNonAsciiAlnum);
    forall k | 0 <= k < |r| ensures Contains(s, r[k]) {
      ContainsIff(s, r[k]);
    }
    r
  }

  /** A capitalised word is a candidate of its own; lower-case words separated by
      spaces form one candidate. */
  lemma FindAllExample(isNonAsciiAlnum: char -> bool)
    ensures FindAll("Hello big world", isNonAsciiAlnum) == ["Hello", "big world"]
  {
    var s := "Hello big world";
    assert LowerRunEnd(s, 1) == 5 && LowerRunEnd(s, 6) == 9 && LowerRunEnd(s, 10) == 15;
    assert SpaceRunEnd(s, 9) == 10 && SpaceRunEnd(s, 15) == 15;
    assert Boundary(s, 0, isNonAsciiAlnum) && Boundary(s, 5, isNonAsciiAlnum);
    assert Boundary(s, 6, isNonAsciiAlnum) && Boundary(s, 15, isNonAsciiAlnum);
    assert MatchAt(s, 0, isNonAsciiAlnum) == Some(5);
    assert MatchAt(s, 5, isNonAsciiAlnum) == None;
    assert NextGroupEnd(s, 15) == None;
    assert FurthestBoundaryEnd(s, 15, isNonAsciiAlnum) == Some(15);
    assert NextGroupEnd(s, 9) == Some(15);
    assert MatchAt(s, 6, isNonAsciiAlnum) == Some(15);
    assert Scan(s, 15, isNonAsciiAlnum) == [];
    assert s[6..15] == "big world" && s[0..5] == "Hello";
    assert Scan(s, 6, isNonAsciiAlnum) == ["big world"];
    assert Scan(s, 5, isNonAsciiAlnum) == ["big world"];
  }

  /** Backtracking drops a trailing group whose end is not a `\b`: in "ab cdE" the run
      "cd" is followed by a capital, so only "ab" matches. */
  lemma FindAllBacktrackExample(isNonAsciiAlnum: char -> bool)
    ensures FindAll("ab cdE", isNonAsciiAlnum) == ["ab"]
  {
    var s := "ab cdE";
    assert FurthestBoundaryEnd(s, 5, isNonAsciiAlnum) == None;
    assert NextGroupEnd(s, 2) == Some(5);
    assert MatchAt(s, 0, isNonAsciiAlnum) == Some(2);
    assert MatchAt(s, 3, isNonAsciiAlnum) == None;
    assert Scan(s, 6, isNonAsciiAlnum) == [];
    assert Scan(s, 2, isNonAsciiAlnum) == [];
    assert s[0..2] == "ab";
  }
}
