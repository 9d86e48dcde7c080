/**
 * The string helpers of main.cpp: `trim` and the character searches that
 * `std::string` provides to it and to the configuration parser.
 */
module Text {
  import opened Wrappers

  /** The characters `trim` removes: space, tab, carriage return, line feed. */
  predicate IsBlank(c: char) {
    c == ' ' || c == '\t' || c == '\r' || c == '\n'
  }

  /** Every character of `s` is one that `trim` removes. */
  predicate AllBlank(s: string) {
    forall k :: 0 <= k < |s| ==> IsBlank(s[k])
  }

  /** `s.find_first_not_of(" \t\r\n", from)`; None stands for `npos`. */
  function FindFirstNotBlank(s: string, from: nat): (r: Option<nat>)
    requires from <= |s|
    ensures r.Some? ==> from <= r.value < |s| && !IsBlank(s[r.value])
    ensures r.Some? ==> forall k :: from <= k < r.value ==> IsBlank(s[k])
    ensures r.None? ==> forall k :: from <= k < |s| ==> IsBlank(s[k])
    decreases |s| - from
  {
    if from == |s| then None
    else if !IsBlank(s[from]) then Some(from)
    else FindFirstNotBlank(s, from + 1)
  }

  /** `s.find_last_not_of(" \t\r\n")` restricted to the indices below `end`. */
  function FindLastNotBlank(s: string, end: nat): (r: Option<nat>)
    requires end <= |s|
    ensures r.Some? ==> r.value < end && !IsBlank(s[r.value])
    ensures r.Some? ==> forall k :: r.value < k < end ==> IsBlank(s[k])
    ensures r.None? ==> forall k :: 0 <= k < end ==> IsBlank(s[k])
  {
    if end == 0 then None
    else if !IsBlank(s[end - 1]) then Some(end - 1)
    else FindLastNotBlank(s, end - 1)
  }

  /** `trim`: the slice between the first and the last non-blank character. */
  function Trim(s: string): (r: string)
    ensures |r| <= |s|
    ensures r == [] || (!IsBlank(r[0]) && !IsBlank(r[|r| - 1]))
  {
    match FindFirstNotBlank(s, 0)
    case None => ""
    case Some(first) =>
      match FindLastNotBlank(s, |s|)
      case None => ""
      case Some(last) => s[first..last + 1]
  }

  /** `s.find(c)`: the first index holding `c`; None stands for `npos`. */
  function Find(s: string, c: char): (r: Option<nat>)
    ensures r.Some? ==> r.value < |s| && s[r.value] == c && c !in s[..r.value]
    ensures r.None? <==> c !in s
  {
    if |s| == 0 then None
    else if s[0] == c then Some(0)
    else match Find(s[1..], c)
         case None => None
         case Some(i) => Some(i + 1)
  }

  /** The result of `trim` is the slice of `s` left after removing blank runs at both ends. */
  lemma TrimIsSlice(s: string)
    ensures exists i, j :: 0 <= i <= j <= |s| && Trim(s) == s[i..j]
                           && AllBlank(s[..i]) && AllBlank(s[j..])
  {
    match FindFirstNotBlank(s, 0)
    case None =>
      assert Trim(s) == s[0..0] && AllBlank(s[..0]) && AllBlank(s[0..]);
    case Some(first) =>
      var last := FindLastNotBlank(s, |s|).value;
      assert Trim(s) == s[first..last + 1];
      assert AllBlank(s[..first]) && AllBlank(s[last + 1..]);
  }

  /**
   * An independent description of `trim`: any slice of `s` that is only
   * surrounded by blanks and does not itself start or end with one is `Trim(s)`.
   */
  lemma TrimUnique(s: string, i: nat, j: nat)
    requires i <= j <= |s|
    requires AllBlank(s[..i]) && AllBlank(s[j..])
    requires i < j ==> !IsBlank(s[i]) && !IsBlank(s[j - 1])
    ensures Trim(s) == s[i..j]
  {
    forall k | 0 <= k < i ensures IsBlank(s[k]) { assert s[k] == s[..i][k]; }
    forall k | j <= k < |s| ensures IsBlank(s[k]) { assert s[k] == s[j..][k - j]; }
    match FindFirstNotBlank(s, 0)
    case None =>
    case Some(first) =>
      var last := FindLastNotBlank(s, |s|).value;
      assert first == i && last == j - 1;
  }

  /** `trim` returns the empty string exactly when the input holds only blanks. */
  lemma TrimEmptyIff(s: string)
    ensures Trim(s) == [] <==> AllBlank(s)
  {
    TrimIsSlice(s);
    var i, j :| 0 <= i <= j <= |s| && Trim(s) == s[i..j] && AllBlank(s[..i]) && AllBlank(s[j..]);
    if Trim(s) == [] {
      forall k | 0 <= k < |s| ensures IsBlank(s[k]) {
        if k < i { assert s[k] == s[..i][k]; } else { assert s[k] == s[j..][k - j]; }
      }
    } else {
      assert Trim(s)[0] == s[i];
    }
  }

  /** Trimming twice is the same as trimming once. */
  lemma TrimIdempotent(s: string)
    ensures Trim(Trim(s)) == Trim(s)
  {
    var t := Trim(s);
    assert t[..0] == [] && t[|t|..] == [];
    TrimUnique(t, 0, |t|);
    assert t[0..|t|] == t;
  }
}
