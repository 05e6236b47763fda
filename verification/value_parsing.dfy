/** `parseValue`: the first decimal number in a table cell's text, as the
    regular expression `/[0-9]+(\.[0-9]+)?/` finds it. The model returns the
    matched characters; `parseFloat` of them is not modelled. */
module ValueParsing {
  import opened Options
  import opened DateKeys

  /** The end of the run of digits starting at `i`. */
  function RunEnd(s: string, i: nat): (e: nat)
    requires i <= |s|
    ensures i <= e <= |s|
    ensures forall j :: i <= j < e ==> IsDigit(s[j])
    ensures e == |s| || !IsDigit(s[e])
    decreases |s| - i
  {
    if i < |s| && IsDigit(s[i]) then RunEnd(s, i + 1) else i
  }

  /** The first digit at or after `from`. */
  function FirstDigit(s: string, from: nat): (r: Option<nat>)
    requires from <= |s|
    ensures r.Some? ==> from <= r.value < |s| && IsDigit(s[r.value])
    ensures r.Some? ==> forall j :: from <= j < r.value ==> !IsDigit(s[j])
    ensures r.None? ==> forall j :: from <= j < |s| ==> !IsDigit(s[j])
    decreases |s| - from
  {
    if from == |s| then None
    else if IsDigit(s[from]) then Some(from)
    else FirstDigit(s, from + 1)
  }

  /** Positions `[start, end)` of a match in the text. */
  datatype Span = Span(start: nat, end: nat)

  /** The match of `/[0-9]+(\.[0-9]+)?/`: it starts at the first digit, takes
      the whole run of digits, and takes a following `.` only together with
      the run of digits after it. */
  function MatchNumber(s: string): (r: Option<Span>)
    ensures r.Some? ==> r.value.start < r.value.end <= |s|
  {
    match FirstDigit(s, 0)
    case None => None
    case Some(i) =>
      var e := RunEnd(s, i);
      if e + 1 < |s| && s[e] == '.' && IsDigit(s[e + 1]) then Some(Span(i, RunEnd(s, e + 1)))
      else Some(Span(i, e))
  }

  /** The strings the regular expression matches: digits, optionally
      followed by a dot and more digits. */
  predicate IsNumberToken(t: string) {
    || (|t| > 0 && AllDigits(t))
    || exists p :: 0 < p < |t| - 1 && t[p] == '.' && AllDigits(t[..p]) && AllDigits(t[p + 1..])
  }

  lemma TokenStartsWithDigit(t: string)
    ensures IsNumberToken(t) ==> |t| > 0 && IsDigit(t[0])
  {
    if IsNumberToken(t) && !(|t| > 0 && AllDigits(t)) {
      var p :| 0 < p < |t| - 1 && t[p] == '.' && AllDigits(t[..p]) && AllDigits(t[p + 1..]);
      assert t[..p][0] == t[0];
    }
  }

  /** Digits, a dot and digits again form a token. */
  lemma FractionToken(s: string, start: nat, e: nat, f: nat)
    requires start < e < e + 1 < f <= |s| && s[e] == '.'
    requires forall j :: start <= j < e ==> IsDigit(s[j])
    requires forall j :: e + 1 <= j < f ==> IsDigit(s[j])
    ensures IsNumberToken(s[start..f])
  {
    var t := s[start..f];
    var k := e - start;
    assert t[..k] == s[start..e];
    assert t[k + 1..] == s[e + 1..f];
    assert t[k] == '.';
    assert AllDigits(t[..k]) && AllDigits(t[k + 1..]);
  }

  /** `s[start..end]` is the leftmost-longest number token of `s`: a token,
      no token starts before it, and it cannot be extended. */
  predicate IsLeftmostLongest(s: string, start: int, end: int) {
    && 0 <= start < end <= |s|
    && IsNumberToken(s[start..end])
    && (forall i, j :: 0 <= i < start && i < j <= |s| ==> !IsNumberToken(s[i..j]))
    && (forall j :: end < j <= |s| ==> !IsNumberToken(s[start..j]))
  }

  /** There is at most one leftmost-longest token. */
  lemma LeftmostLongestUnique(s: string, i1: int, e1: int, i2: int, e2: int)
    requires IsLeftmostLongest(s, i1, e1) && IsLeftmostLongest(s, i2, e2)
    ensures i1 == i2 && e1 == e2
  {
    assert i1 == i2;
    assert IsNumberToken(s[i1..e2]) && IsNumberToken(s[i2..e1]);
  }

  /** The match is the leftmost-longest token (no token starts before it:
      every token starts with a digit, and there is none before it).
      Without any digit there is no match. */
  lemma MatchIsLeftmostLongest(s: string)
    ensures MatchNumber(s).None? <==> forall j :: 0 <= j < |s| ==> !IsDigit(s[j])
    ensures MatchNumber(s).Some? ==> IsLeftmostLongest(s, MatchNumber(s).value.start, MatchNumber(s).value.end)
  {
    match FirstDigit(s, 0)
    case None =>
    case Some(start) =>
      var e := RunEnd(s, start);
      var sp := MatchNumber(s).value;
      var frac := e + 1 < |s| && s[e] == '.' && IsDigit(s[e + 1]);
      if frac {
        FractionToken(s, start, e, sp.end);
      } else {
        assert AllDigits(s[start..sp.end]);
      }
      forall i, j | 0 <= i < sp.start && i < j <= |s|
        ensures !IsNumberToken(s[i..j])
      {
        TokenStartsWithDigit(s[i..j]);
      }
      forall j | sp.end < j <= |s|
        ensures !IsNumberToken(s[start..j])
      {
        NotLonger(s, start, e, sp.end, j);
      }
  }

  /** A token that starts at the first digit ends within the match. */
  lemma NotLonger(s: string, start: nat, e: nat, end: nat, j: nat)
    requires start < e <= |s| && e == RunEnd(s, start)
    requires end == (if e + 1 < |s| && s[e] == '.' && IsDigit(s[e + 1]) then RunEnd(s, e + 1) else e)
    requires end < j <= |s|
    ensures !IsNumberToken(s[start..j])
  {
    var t := s[start..j];
    var k := e - start;
    assert !IsDigit(t[k]);
    forall p | 0 < p < |t| - 1 && t[p] == '.' && AllDigits(t[..p])
      ensures !AllDigits(t[p + 1..])
    {
      assert forall q :: 0 <= q < p ==> t[..p][q] == t[q];
      assert forall q :: 0 <= q < k ==> t[q] == s[start + q];
      assert p == k;
      assert t[p + 1..][0] == s[e + 1];
      if IsDigit(s[e + 1]) {
        assert end == RunEnd(s, e + 1);
        assert t[p + 1..][end - e - 1] == s[end];
      }
    }
  }

  /** `parseValue(str)`: no value for empty text (`if (!str) return null`)
      or text without a digit; otherwise the matched number. */
  function ParseValue(s: string): (r: Option<string>)
    ensures r.None? <==> forall j :: 0 <= j < |s| ==> !IsDigit(s[j])
    ensures r.Some? ==> exists i, e :: IsLeftmostLongest(s, i, e) && r.value == s[i..e]
  {
    MatchIsLeftmostLongest(s);
    if s == "" then None
    else
      match MatchNumber(s)
      case Some(sp) => Some(s[sp.start..sp.end])
      case None => None
  }

  /** `parseValue` returns exactly the leftmost-longest token, wherever
      the text has one. */
  lemma ParseValueIsLeftmostLongest(s: string, i: int, e: int)
    requires IsLeftmostLongest(s, i, e)
    ensures ParseValue(s) == Some(s[i..e])
  {
    TokenStartsWithDigit(s[i..e]);
    assert IsDigit(s[i..e][0]) && s[i..e][0] == s[i];
    var r := ParseValue(s);
    var i2, e2 :| IsLeftmostLongest(s, i2, e2) && r.value == s[i2..e2];
    LeftmostLongestUnique(s, i, e, i2, e2);
  }

  lemma ParseValueExamples()
    ensures ParseValue("72 ms") == Some("72")
    ensures ParseValue("N/A") == None
    ensures ParseValue("3.") == Some("3")
    ensures ParseValue("-5") == Some("5")
    ensures ParseValue("5.25 mmol/L") == Some("5.25")
  {
    var a := "72 ms";
    assert IsDigit(a[0]) && IsDigit(a[1]) && !IsDigit(a[2]);
    assert RunEnd(a, 0) == 2;
    assert a[0..2] == "72";
    var b := "3.";
    assert IsDigit(b[0]) && !IsDigit(b[1]);
    assert RunEnd(b, 0) == 1;
    assert b[0..1] == "3";
    var c := "-5";
    assert !IsDigit(c[0]) && IsDigit(c[1]);
    assert FirstDigit(c, 0) == Some(1);
    assert RunEnd(c, 1) == 2;
    assert c[1..2] == "5";
    var v := "5.25 mmol/L";
    assert RunEnd(v, 1) == 1 && RunEnd(v, 4) == 4;
    assert v[0..4] == "5.25";
  }
}
