/**
 * The amount field of lib/components/ui/AmountInput.tsx: what the field
 * keeps of typed text (the regular expression ^[0-9]+(\.[0-9]{0,n})? and
 * the leading-zero clean-up of prepareVal), what it passes to its owner
 * (strip), and the trailing-zero trim on blur. The field's React state
 * (val, focused, initialBlur) is a class.
 */
module AmountInput {
  import opened Common

  predicate IsDigit(c: char) {
    '0' <= c <= '9'
  }

  // Scanning a string from an index

  /** The end of the run of digits that starts at k. */
  function DigitsEnd(s: string, k: nat): (e: nat)
    requires k <= |s|
    ensures k <= e <= |s|
    ensures forall i :: k <= i < e ==> IsDigit(s[i])
    ensures e < |s| ==> !IsDigit(s[e])
    decreases |s| - k
  {
    if k == |s| || !IsDigit(s[k]) then k else DigitsEnd(s, k + 1)
  }

  /** The run of digits is the only end with digits before it and none at it. */
  lemma DigitsEndUnique(s: string, k: nat, e: nat)
    requires k <= e <= |s|
    requires forall i :: k <= i < e ==> IsDigit(s[i])
    requires e < |s| ==> !IsDigit(s[e])
    ensures DigitsEnd(s, k) == e
  {
  }

  /** The length of the run of digits s starts with. */
  function DigitRun(s: string): nat
  {
    DigitsEnd(s, 0)
  }

  /** The end of the piece that starts at k in s.split("."): the first '.'
      at or after k, or |s|. */
  function PieceEnd(s: string, k: nat): (e: nat)
    requires k <= |s|
    ensures k <= e <= |s|
    ensures forall j :: k <= j < e ==> s[j] != '.'
    ensures e < |s| ==> s[e] == '.'
    decreases |s| - k
  {
    if k == |s| || s[k] == '.' then k else PieceEnd(s, k + 1)
  }

  lemma PieceEndUnique(s: string, k: nat, e: nat)
    requires k <= e <= |s|
    requires forall j :: k <= j < e ==> s[j] != '.'
    requires e < |s| ==> s[e] == '.'
    ensures PieceEnd(s, k) == e
  {
  }

  /** s.split(".")[0]. */
  function Head(s: string): string {
    s[..PieceEnd(s, 0)]
  }

  /** s.split(".") has more than one piece. */
  predicate HasDot(s: string) {
    PieceEnd(s, 0) < |s|
  }

  /** s.split(".")[1]: the text between the first '.' and the next one. */
  function SecondPiece(s: string): string
    requires HasDot(s)
  {
    s[PieceEnd(s, 0) + 1..PieceEnd(s, PieceEnd(s, 0) + 1)]
  }

  // The regular expression ^[0-9]+(\.[0-9]{0,maxFraction})?

  /** The text of the expression's shape: digits, then optionally '.' and
      at most maxFraction digits. */
  predicate AmountShape(t: string, maxFraction: nat) {
    var d := DigitRun(t);
    d >= 1 && (d == |t| || (t[d] == '.' && |t| - d - 1 <= maxFraction && DigitsEnd(t, d + 1) == |t|))
  }

  /** exec of the expression: None when s does not start with a digit,
      else the digits, then '.' and up to maxFraction digits after it if
      s goes on with '.'. */
  function MatchAmount(s: string, maxFraction: nat): (m: Option<string>)
    ensures m.None? <==> |s| == 0 || !IsDigit(s[0])
    ensures m.Some? ==> |m.value| <= |s| && m.value == s[..|m.value|]
  {
    var d := DigitRun(s);
    if d == 0 then None
    else if d < |s| && s[d] == '.' then
      var f := DigitsEnd(s, d + 1) - (d + 1);
      Some(s[..d + 1 + (if f < maxFraction then f else maxFraction)])
    else Some(s[..d])
  }

  /** A prefix of s ends its runs of digits where s does, or at its end. */
  lemma PrefixDigits(s: string, k: nat, j: nat)
    requires j <= k <= |s|
    ensures DigitsEnd(s[..k], j) == if DigitsEnd(s, j) < k then DigitsEnd(s, j) else k
  {
    var e := DigitsEnd(s, j);
    var m := if e < k then e else k;
    forall i | j <= i < m
      ensures IsDigit(s[..k][i])
    {
      assert s[..k][i] == s[i];
    }
    if m < k {
      assert s[..k][m] == s[m];
    }
    DigitsEndUnique(s[..k], j, m);
  }

  /** What the expression matches has its shape. */
  lemma MatchShape(s: string, maxFraction: nat)
    requires MatchAmount(s, maxFraction).Some?
    ensures AmountShape(MatchAmount(s, maxFraction).value, maxFraction)
  {
    var m := MatchAmount(s, maxFraction).value;
    var d := DigitRun(s);
    PrefixDigits(s, |m|, 0);
    if d < |m| {
      assert m[d] == s[d];
      PrefixDigits(s, |m|, d + 1);
    }
  }

  /** ... and is the longest prefix of s of that shape. */
  lemma MatchIsLongest(s: string, maxFraction: nat, p: nat)
    requires p <= |s| && AmountShape(s[..p], maxFraction)
    ensures MatchAmount(s, maxFraction).Some?
    ensures p <= |MatchAmount(s, maxFraction).value|
  {
    var t := s[..p];
    var d := DigitRun(s);
    PrefixDigits(s, p, 0);
    if d < p {
      assert t[d] == s[d];
      PrefixDigits(s, p, d + 1);
    }
  }

  // prepareVal

  /** The end of the leading '0's prepareVal drops from ip, scanning from
      k: never the last character. */
  function ZerosEnd(ip: string, k: nat): (e: nat)
    requires k <= |ip|
    ensures k <= e <= |ip|
    ensures k < |ip| ==> e < |ip|
    ensures forall j :: k <= j < e ==> ip[j] == '0'
    ensures e + 1 < |ip| ==> ip[e] != '0'
    decreases |ip| - k
  {
    if k + 1 < |ip| && ip[k] == '0' then ZerosEnd(ip, k + 1) else k
  }

  /** The integer part without its leading zeros, keeping at least one
      character. */
  function StripZeros(ip: string): (r: string)
    ensures |r| <= |ip|
    ensures forall j :: 0 <= j < |r| ==> r[j] == ip[|ip| - |r| + j]
    ensures forall j :: 0 <= j < |ip| - |r| ==> ip[j] == '0'
    ensures |ip| > 0 ==> |r| > 0
    ensures |r| <= 1 || r[0] != '0'
  {
    ip[ZerosEnd(ip, 0)..]
  }

  /** s is "" or "0". */
  predicate IsEmptyOrZero(s: string) {
    |s| == 0 || (|s| == 1 && s[0] == '0')
  }

  /** s is "0.". */
  predicate IsZeroDot(s: string) {
    |s| == 2 && s[0] == '0' && s[1] == '.'
  }

  /** The inputs prepareVal returns as they are. */
  predicate Untouched(s: string) {
    IsEmptyOrZero(s) || (s[0] != '0' && s[|s| - 1] != '0') || IsZeroDot(s)
  }

  /** The integer part without its leading zeros, then '.' and the second
      piece if there is one. */
  function Rebuilt(s: string): string {
    var h := StripZeros(Head(s));
    if HasDot(s) then h + ("." + SecondPiece(s)) else h
  }

  /** prepareVal as a function. */
  function Prepared(s: string): (r: string)
    ensures |r| <= |s|
    ensures |s| > 0 ==> |r| > 0
  {
    if Untouched(s) then s else Rebuilt(s)
  }

  /** The counting loop of prepareVal: over all but the last character of
      the integer part, idx1 goes up while the character is '0'. */
  method CountLeadingZeros(arr1: string) returns (idx1: nat)
    ensures idx1 == ZerosEnd(arr1, 0)
    ensures |arr1| > 0 ==> idx1 < |arr1| && StripZeros(arr1) == arr1[idx1..]
  {
    idx1 := 0;
    var limit := if |arr1| == 0 then 0 else |arr1| - 1;
    var k := 0;
    while k < limit
      invariant 0 <= k <= limit && idx1 == k
      invariant forall j :: 0 <= j < k ==> arr1[j] == '0'
      decreases limit - k
    {
      if idx1 == |arr1| - 1 {
        break;
      }
      if arr1[k] == '0' {
        idx1 := idx1 + 1;
      } else {
        break;
      }
      k := k + 1;
    }
    ZerosEndUnique(arr1, idx1);
  }

  /** The only end of leading '0's that stops before a last character or
      at a character other than '0'. */
  lemma ZerosEndUnique(ip: string, e: nat)
    requires e <= |ip| && (e < |ip| || e == 0)
    requires forall j :: 0 <= j < e ==> ip[j] == '0'
    requires e + 1 < |ip| ==> ip[e] != '0'
    ensures ZerosEnd(ip, 0) == e
  {
  }

  /** prepareVal: "", "0", text neither starting nor ending with '0' and
      "0." as they are; otherwise the integer part after the loop, then
      '.' and the second piece if the text has a '.'. */
  method PrepareVal(s: string) returns (r: string)
    ensures r == Prepared(s)
  {
    if IsEmptyOrZero(s) || (s[0] != '0' && s[|s| - 1] != '0') || IsZeroDot(s) {
      return s;
    }
    var e := PieceEnd(s, 0);
    var arr1 := s[..e];
    var idx1 := CountLeadingZeros(arr1);
    if e == |s| {
      r := arr1[idx1..];
    } else {
      r := arr1[idx1..] + ("." + s[e + 1..PieceEnd(s, e + 1)]);
    }
  }

  /** prepareVal leaves "", "0", "0." and text that neither starts nor
      ends with '0' alone. */
  lemma PreparedUnchanged(s: string)
    requires s == "" || s == "0" || s == "0." || (s[0] != '0' && s[|s| - 1] != '0')
    ensures Prepared(s) == s
  {
  }

  /** Splitting h + "." + f where h has no '.' gives back h and f. */
  lemma SplitJoined(h: string, f: string)
    requires forall j :: 0 <= j < |h| ==> h[j] != '.'
    ensures PieceEnd(h + ("." + f), 0) == |h|
    ensures (h + ("." + f))[..|h|] == h && (h + ("." + f))[|h| + 1..] == f
  {
    var r := h + ("." + f);
    forall j | 0 <= j < |h|
      ensures r[j] != '.'
    {
      assert r[j] == h[j];
    }
    assert r[|h|] == '.';
    PieceEndUnique(r, 0, |h|);
    assert r[..|h|] == h;
    assert r[|h| + 1..] == f;
  }

  /** The integer part holds no '.', and neither does it stripped. */
  lemma StrippedHeadNoDot(s: string)
    ensures forall j :: 0 <= j < |StripZeros(Head(s))| ==> StripZeros(Head(s))[j] != '.'
  {
    var x := Head(s);
    var h := StripZeros(x);
    forall j | 0 <= j < |h|
      ensures h[j] != '.'
    {
      assert h[j] == x[|x| - |h| + j] == s[|x| - |h| + j];
    }
  }

  /** Otherwise its integer part is the input's without leading zeros, but
      never empty: "0" or a part starting with 1-9; there is a '.' when the
      input has one, and after it only the input's second piece. */
  lemma PreparedParts(s: string)
    requires !Untouched(s)
    ensures Head(Prepared(s)) == StripZeros(Head(s))
    ensures HasDot(Prepared(s)) <==> HasDot(s)
    ensures HasDot(s) ==> Prepared(s)[PieceEnd(Prepared(s), 0) + 1..] == SecondPiece(s)
  {
    var h := StripZeros(Head(s));
    StrippedHeadNoDot(s);
    if HasDot(s) {
      SplitJoined(h, SecondPiece(s));
    } else {
      PieceEndUnique(h, 0, |h|);
    }
  }

  // checkVal

  /** checkVal: "" for undefined and for text that does not match, else
      prepareVal of the match. */
  function CheckVal(v: Option<string>, maxFraction: nat): (r: string)
    ensures v.None? || MatchAmount(v.value, maxFraction).None? ==> r == ""
    ensures v.Some? && MatchAmount(v.value, maxFraction).Some? ==> r == Prepared(MatchAmount(v.value, maxFraction).value)
  {
    if v.None? then ""
    else
      var m := MatchAmount(v.value, maxFraction);
      if m.None? then "" else Prepared(m.value)
  }

  /** Text of the shape has no '.' in its integer part; it has one more
      exactly when its digits stop before its end, and the rest are
      digits. */
  lemma ShapeParts(t: string, maxFraction: nat)
    requires AmountShape(t, maxFraction)
    ensures PieceEnd(t, 0) == DigitRun(t)
    ensures DigitRun(t) < |t| ==> PieceEnd(t, DigitRun(t) + 1) == |t|
  {
    var d := DigitRun(t);
    PieceEndUnique(t, 0, d);
    if d < |t| {
      PieceEndUnique(t, d + 1, |t|);
    }
  }

  /** Digits h, '.', and at most maxFraction digits f make text of the
      shape whose run of digits is h. */
  lemma ShapeOf(h: string, f: string, maxFraction: nat)
    requires |h| >= 1 && |f| <= maxFraction
    requires forall j :: 0 <= j < |h| ==> IsDigit(h[j])
    requires forall j :: 0 <= j < |f| ==> IsDigit(f[j])
    ensures AmountShape(h + ("." + f), maxFraction)
    ensures DigitRun(h + ("." + f)) == |h|
  {
    var r := h + ("." + f);
    forall j | 0 <= j < |h|
      ensures IsDigit(r[j])
    {
      assert r[j] == h[j];
    }
    assert r[|h|] == '.';
    DigitsEndUnique(r, 0, |h|);
    forall j | |h| + 1 <= j < |r|
      ensures IsDigit(r[j])
    {
      assert r[j] == f[j - |h| - 1];
    }
    DigitsEndUnique(r, |h| + 1, |r|);
  }

  /** Nonempty digits alone are text of the shape. */
  lemma WholeShape(h: string, maxFraction: nat)
    requires |h| >= 1
    requires forall j :: 0 <= j < |h| ==> IsDigit(h[j])
    ensures AmountShape(h, maxFraction) && DigitRun(h) == |h|
  {
    DigitsEndUnique(h, 0, |h|);
  }

  /** Cleaning text of the shape gives text of the shape. */
  lemma RebuiltShape(m: string, maxFraction: nat)
    requires AmountShape(m, maxFraction)
    ensures AmountShape(Rebuilt(m), maxFraction)
    ensures |Head(Rebuilt(m))| <= 1 || Rebuilt(m)[0] != '0'
  {
    var d := DigitRun(m);
    ShapeParts(m, maxFraction);
    var x := Head(m);
    var h := StripZeros(x);
    forall j | 0 <= j < |h|
      ensures IsDigit(h[j])
    {
      assert h[j] == x[|x| - |h| + j] == m[|x| - |h| + j];
    }
    StrippedHeadNoDot(m);
    if d < |m| {
      var f := SecondPiece(m);
      forall j | 0 <= j < |f|
        ensures IsDigit(f[j])
      {
        assert f[j] == m[d + 1 + j];
      }
      ShapeOf(h, f, maxFraction);
      SplitJoined(h, f);
    } else {
      WholeShape(h, maxFraction);
      PieceEndUnique(h, 0, |h|);
    }
  }

  /** What checkVal keeps is empty or of the pattern's shape with a clean
      integer part: so at most one '.', at most maxFraction digits after
      it, and no leading zero before a further digit. */
  lemma CheckValShape(v: Option<string>, maxFraction: nat)
    ensures var r := CheckVal(v, maxFraction);
      r == "" || (AmountShape(r, maxFraction) && (DigitRun(r) <= 1 || r[0] != '0'))
  {
    if v.Some? && MatchAmount(v.value, maxFraction).Some? {
      var m := MatchAmount(v.value, maxFraction).value;
      MatchShape(v.value, maxFraction);
      if !Untouched(m) {
        RebuiltShape(m, maxFraction);
        ShapeParts(Rebuilt(m), maxFraction);
      }
    }
  }

  /** prepareVal leaves clean text of the shape as it is. */
  lemma PreparedClean(t: string, maxFraction: nat)
    requires AmountShape(t, maxFraction) && (DigitRun(t) <= 1 || t[0] != '0')
    ensures Prepared(t) == t
  {
    if !Untouched(t) {
      var d := DigitRun(t);
      ShapeParts(t, maxFraction);
      var x := Head(t);
      assert |x| == d && (d > 1 ==> x[0] == t[0]);
      ZerosEndUnique(x, 0);
      assert StripZeros(x) == x[0..] == x;
      if d < |t| {
        assert SecondPiece(t) == t[d + 1..];
        JoinAtDot(t, d);
      }
    }
  }

  /** Text is its part before index d, '.', and its part after d when '.'
      is at d. */
  lemma JoinAtDot(t: string, d: nat)
    requires d < |t| && t[d] == '.'
    ensures t == t[..d] + ("." + t[d + 1..])
  {
    var f := t[d + 1..];
    forall j | 0 <= j < |t|
      ensures t[j] == (t[..d] + ("." + f))[j]
    {
      if j > d {
        assert f[j - d - 1] == t[j];
      }
    }
  }

  /** The expression matches the whole of text of its shape. */
  lemma MatchWhole(t: string, maxFraction: nat)
    requires AmountShape(t, maxFraction)
    ensures MatchAmount(t, maxFraction) == Some(t)
  {
    MatchIsLongest(t, maxFraction, |t|);
    assert MatchAmount(t, maxFraction).value == t[..|t|] == t;
  }

  /** checkVal of its own result changes nothing. */
  lemma CheckValIdempotent(v: Option<string>, maxFraction: nat)
    ensures CheckVal(Some(CheckVal(v, maxFraction)), maxFraction) == CheckVal(v, maxFraction)
  {
    var r := CheckVal(v, maxFraction);
    CheckValShape(v, maxFraction);
    if r != "" {
      MatchWhole(r, maxFraction);
      PreparedClean(r, maxFraction);
    }
  }

  // strip and the trim on blur

  /** strip: drops a trailing '.'. */
  function Strip(v: string): (r: string)
    ensures |v| > 0 && v[|v| - 1] == '.' ==> r + "." == v
    ensures (|v| == 0 || v[|v| - 1] != '.') ==> r == v
  {
    if |v| > 0 && v[|v| - 1] == '.' then v[..|v| - 1] else v
  }

  /** The last '.' before index k, or -1. */
  function LastDotBefore(s: string, k: nat): (i: int)
    requires k <= |s|
    ensures -1 <= i < k
    ensures i >= 0 ==> s[i] == '.'
    ensures forall j :: i < j < k ==> s[j] != '.'
    decreases k
  {
    if k == 0 then -1 else if s[k - 1] == '.' then k - 1 else LastDotBefore(s, k - 1)
  }

  /** The number of '0's just before index k. */
  function ZerosBefore(s: string, k: nat): (n: nat)
    requires k <= |s|
    ensures n <= k
    ensures forall j :: k - n <= j < k ==> s[j] == '0'
    ensures n < k ==> s[k - n - 1] != '0'
    decreases k
  {
    if k > 0 && s[k - 1] == '0' then ZerosBefore(s, k - 1) + 1 else 0
  }

  /** The replacement of /(\.[0-9]*[1-9])0+$|\.0*$/ by "$1": when s ends
      in '.' and digits, the trailing '0's go, and the '.' too when only
      '0's follow it. */
  function BlurTrim(s: string): (r: string)
    ensures |r| <= |s| && r == s[..|r|]
    ensures forall j :: |r| <= j < |s| ==> s[j] == '0' || (j == |r| && s[j] == '.')
    ensures |r| < |s| ==> var p := LastDotBefore(s, |s|);
      p >= 0 && DigitsEnd(s, p + 1) == |s| && (|r| == p || (p < |r| && r[|r| - 1] != '0'))
    ensures var p := LastDotBefore(s, |s|);
      p >= 0 && DigitsEnd(s, p + 1) == |s| && (forall j :: p < j < |s| ==> s[j] == '0') ==> r == s[..p]
    ensures var p := LastDotBefore(s, |s|);
      p >= 0 && DigitsEnd(s, p + 1) == |s| && (exists j :: p < j < |s| && s[j] != '0') ==>
        p < |r| && r[|r| - 1] != '0'
  {
    var p := LastDotBefore(s, |s|);
    if p == -1 || DigitsEnd(s, p + 1) != |s| then s
    else
      var z := ZerosBefore(s, |s|);
      if z == |s| - p - 1 then s[..p] else s[..|s| - z]
  }

  /** "1.500" loses its trailing zeros. */
  lemma BlurTrimDropsZeros()
    ensures BlurTrim("1.500") == "1.5"
  {
    var s := "1.500";
    assert LastDotBefore(s, 5) == 1;
    assert DigitsEnd(s, 2) == 5;
    assert ZerosBefore(s, 5) == 2;
  }

  /** "2.00" and "3." lose the '.' as well. */
  lemma BlurTrimDropsDot()
    ensures BlurTrim("2.00") == "2"
    ensures BlurTrim("3.") == "3"
  {
    assert LastDotBefore("2.00", 4) == 1;
    assert DigitsEnd("2.00", 2) == 4;
    assert ZerosBefore("2.00", 4) == 2;
    assert LastDotBefore("3.", 2) == 1;
  }

  /** "1.05" and "10" stay as they are. */
  lemma BlurTrimKeeps()
    ensures BlurTrim("1.05") == "1.05"
    ensures BlurTrim("10") == "10"
  {
    assert LastDotBefore("1.05", 4) == 1;
    assert DigitsEnd("1.05", 2) == 4;
    assert ZerosBefore("1.05", 4) == 0;
    assert LastDotBefore("10", 2) == -1;
  }

  // The field

  /** The field's state: the text shown and whether it has focus. */
  class AmountField {
    /** The n of ^[0-9]+(\.[0-9]{0,n})? (10 by default). */
    const maxFraction: nat
    var val: string
    var focused: bool
    var initialBlur: bool

    /** The initial state from the value prop: "" and "0" as they are,
        anything else through checkVal (undefined gives ""). */
    constructor (value: Option<string>, maxFraction: nat)
      ensures this.maxFraction == maxFraction && !focused && !initialBlur
      ensures val == FromProp(value, maxFraction)
    {
      this.maxFraction := maxFraction;
      val := FromProp(value, maxFraction);
      focused := false;
      initialBlur := false;
    }

    /** The effect on a new value prop. */
    method OnValueProp(value: Option<string>)
      modifies this
      ensures val == FromProp(value, maxFraction)
      ensures focused == old(focused) && initialBlur == old(initialBlur)
    {
      val := FromProp(value, maxFraction);
    }

    /** onChange of the input: the typed text through checkVal. */
    method OnChanged(text: string)
      modifies this
      ensures val == CheckVal(Some(text), maxFraction)
      ensures val == "" || AmountShape(val, maxFraction)
      ensures focused == old(focused) && initialBlur == old(initialBlur)
    {
      CheckValShape(Some(text), maxFraction);
      val := CheckVal(Some(text), maxFraction);
    }

    method OnFocus()
      modifies this
      ensures focused && val == old(val) && initialBlur == old(initialBlur)
    {
      focused := true;
    }

    /** onBlur: the trimmed text through checkVal; the field loses focus
        and has been blurred once. */
    method OnBlured()
      modifies this
      ensures val == CheckVal(Some(BlurTrim(old(val))), maxFraction)
      ensures val == "" || AmountShape(val, maxFraction)
      ensures !focused && initialBlur
    {
      CheckValShape(Some(BlurTrim(val)), maxFraction);
      val := CheckVal(Some(BlurTrim(val)), maxFraction);
      focused := false;
      initialBlur := true;
    }

    /** The effect on val: nothing when val equals the value prop; "0" and
        "" as they are; anything else without a trailing '.'. */
    function ToEmit(value: Option<string>): (emitted: Option<string>)
      reads this
      ensures emitted.None? <==> value == Some(val)
      ensures emitted.Some? && (val == "0" || val == "") ==> emitted.value == val
      ensures emitted.Some? ==> emitted.value == val || emitted.value + "." == val
      ensures emitted.Some? && val != "0" && val != "" ==> emitted.value == Strip(val)
    {
      if value == Some(val) then None
      else if val == "0" || val == "" then Some(val)
      else Some(Strip(val))
    }
  }

  /** The value prop as the field takes it. */
  function FromProp(value: Option<string>, maxFraction: nat): (v: string)
    ensures value == Some("") || value == Some("0") ==> v == value.value
    ensures v == "" || v == "0" || AmountShape(v, maxFraction)
  {
    CheckValShape(value, maxFraction);
    if value == Some("") || value == Some("0") then value.value else CheckVal(value, maxFraction)
  }

  /** What the field emits never ends with '.': its text is "", "0" or of
      the expression's shape (as the constructor and every handler leave
      it), and strip removes a last '.'. */
  lemma EmittedHasNoTrailingDot(field: AmountField, value: Option<string>)
    requires field.val == "" || field.val == "0" || AmountShape(field.val, field.maxFraction)
    ensures var emitted := field.ToEmit(value);
      emitted.Some? && emitted.value != "" ==> emitted.value[|emitted.value| - 1] != '.'
  {
    if field.val != "" && field.val != "0" {
      StrippedShape(field.val, field.maxFraction);
    }
  }

  /** Text of the shape without a trailing '.' is nonempty and does not
      end with '.'. */
  lemma StrippedShape(t: string, maxFraction: nat)
    requires AmountShape(t, maxFraction)
    ensures |Strip(t)| > 0 && Strip(t)[|Strip(t)| - 1] != '.'
  {
    var d := DigitRun(t);
    if t[|t| - 1] == '.' {
      assert |t| - 1 == d;
      assert Strip(t)[d - 1] == t[d - 1];
    }
  }
}
