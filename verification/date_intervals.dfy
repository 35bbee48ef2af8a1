/**
 * The interval codes of `DatePart`, `DateAdd` and `DateDiff`: the argument is
 * trimmed the way `String.trim` does it and compared, ignoring case, with
 * the ten codes; anything else is an "Invalid interval" evaluation error.
 */
module DateIntervals {
  import opened Outcomes

  /** The evaluation errors the date functions raise. */
  datatype DateFault =
    | InvalidInterval(intv: string)        // "Invalid interval " + intv
    | InvalidFirstWeekType(weekType: int)  // "Invalid first week of year type " + firstWeekType

  datatype Interval = Year | Quarter | Month | DayOfYear | Day | Weekday | Week | Hour | Minute | Second

  /** The code of each interval (`INTV_YEAR` … `INTV_SECOND`). */
  function Code(i: Interval): (code: string)
    ensures 1 <= |code| <= 4 && forall k :: 0 <= k < |code| ==> 'a' <= code[k] <= 'z'
  {
    match i
    case Year => "yyyy"
    case Quarter => "q"
    case Month => "m"
    case DayOfYear => "y"
    case Day => "d"
    case Weekday => "w"
    case Week => "ww"
    case Hour => "h"
    case Minute => "n"
    case Second => "s"
  }

  /** `String.trim` treats every character up to U+0020 as blank. */
  predicate Blank(c: char) {
    c <= ' '
  }

  /** The string without its leading blanks. */
  function TrimStart(s: string): (r: string)
    ensures |r| <= |s| && r == s[|s| - |r|..]
    ensures forall k :: 0 <= k < |s| - |r| ==> Blank(s[k])
    ensures r == [] || !Blank(r[0])
  {
    if s != [] && Blank(s[0]) then TrimStart(s[1..]) else s
  }

  /** The string without its trailing blanks. */
  function TrimEnd(s: string): (r: string)
    ensures |r| <= |s| && r == s[..|r|]
    ensures forall k :: |r| <= k < |s| ==> Blank(s[k])
    ensures r == [] || !Blank(r[|r| - 1])
  {
    if s != [] && Blank(s[|s| - 1]) then TrimEnd(s[..|s| - 1]) else s
  }

  /** `String.trim`: leading blanks, then trailing blanks, removed. */
  function Trim(s: string): (r: string)
    ensures r == [] || (!Blank(r[0]) && !Blank(r[|r| - 1]))
  {
    TrimEnd(TrimStart(s))
  }

  /** A string with no blank at either end comes back from `Trim` unchanged, whatever blanks surround it. */
  lemma TrimPadded(pre: string, t: string, post: string)
    requires forall k :: 0 <= k < |pre| ==> Blank(pre[k])
    requires forall k :: 0 <= k < |post| ==> Blank(post[k])
    requires t == [] || (!Blank(t[0]) && !Blank(t[|t| - 1]))
    ensures t != [] ==> Trim(pre + t + post) == t
  {
    if t != [] {
      var s := pre + t + post;
      var a := TrimStart(s);
      assert s[|pre|] == t[0];
      assert a[0] == s[|s| - |a|];
      assert a == t + post;
      var b := TrimEnd(a);
      assert a[|t| - 1] == t[|t| - 1];
      assert b[|b| - 1] == a[|b| - 1];
      assert b == a[..|t|] == t;
    }
  }

  /** Trimming twice trims nothing more. */
  lemma TrimIdempotent(s: string)
    ensures Trim(Trim(s)) == Trim(s)
  {
    var t := Trim(s);
    if t != [] {
      TrimPadded([], t, []);
      assert [] + t + [] == t;
    }
  }

  /** ASCII lower-casing. */
  function Lower(c: char): (r: char)
    ensures 'A' <= c <= 'Z' ==> r as int == c as int + 32
    ensures !('A' <= c <= 'Z') ==> r == c
  {
    if 'A' <= c <= 'Z' then (c as int + 32) as char else c
  }

  /** `String.equalsIgnoreCase`, for the ASCII letters the interval codes use. */
  predicate EqualsIgnoreCase(a: string, b: string) {
    |a| == |b| && forall k :: 0 <= k < |a| ==> Lower(a[k]) == Lower(b[k])
  }

  /**
   * The dispatch shared by `DatePart`, `DateAdd` and `DateDiff`: the trimmed
   * argument against each code in turn, ignoring case.
   */
  function ParseInterval(intv: string): (r: Result<Interval, DateFault>)
    ensures r.Ok? ==> EqualsIgnoreCase(Trim(intv), Code(r.value))
    ensures r.Err? ==> r.error == InvalidInterval(Trim(intv))
  {
    var t := Trim(intv);
    if EqualsIgnoreCase(t, "yyyy") then Ok(Year)
    else if EqualsIgnoreCase(t, "q") then Ok(Quarter)
    else if EqualsIgnoreCase(t, "m") then Ok(Month)
    else if EqualsIgnoreCase(t, "y") then Ok(DayOfYear)
    else if EqualsIgnoreCase(t, "d") then Ok(Day)
    else if EqualsIgnoreCase(t, "w") then Ok(Weekday)
    else if EqualsIgnoreCase(t, "ww") then Ok(Week)
    else if EqualsIgnoreCase(t, "h") then Ok(Hour)
    else if EqualsIgnoreCase(t, "n") then Ok(Minute)
    else if EqualsIgnoreCase(t, "s") then Ok(Second)
    else Err(InvalidInterval(t))
  }

  /** The interval is recognised exactly when the trimmed argument is one of the codes, ignoring case. */
  lemma ParseIntervalComplete(intv: string, i: Interval)
    ensures ParseInterval(intv) == Ok(i) <==> EqualsIgnoreCase(Trim(intv), Code(i))
  {
    var t := Trim(intv);
    if EqualsIgnoreCase(t, Code(i)) {
      forall j | j != i
        ensures !EqualsIgnoreCase(t, Code(j))
      {
        CodesDiffer(t, i, j);
      }
    }
  }

  /** No string matches two codes: the codes differ in length or in a lower-case letter. */
  lemma CodesDiffer(t: string, i: Interval, j: Interval)
    requires i != j && EqualsIgnoreCase(t, Code(i))
    ensures !EqualsIgnoreCase(t, Code(j))
  {
    assert Lower(t[0]) == Lower(Code(i)[0]) == Code(i)[0];
  }

  /** The code of an interval, padded with blanks and written in upper case, still selects that interval. */
  lemma ParseIntervalRoundTrip(i: Interval, pre: string, post: string)
    requires forall k :: 0 <= k < |pre| ==> Blank(pre[k])
    requires forall k :: 0 <= k < |post| ==> Blank(post[k])
    ensures ParseInterval(pre + Code(i) + post) == Ok(i)
    ensures ParseInterval(pre + Upper(Code(i)) + post) == Ok(i)
  {
    var code := Code(i);
    var up := Upper(code);
    TrimPadded(pre, code, post);
    TrimPadded(pre, up, post);
    ParseIntervalComplete(pre + code + post, i);
    ParseIntervalComplete(pre + up + post, i);
  }

  /** ASCII upper-casing of a string of lower-case letters. */
  function Upper(s: string): (r: string)
    requires forall k :: 0 <= k < |s| ==> 'a' <= s[k] <= 'z'
    ensures |r| == |s| && forall k :: 0 <= k < |s| ==> 'A' <= r[k] <= 'Z' && Lower(r[k]) == s[k]
  {
    seq(|s|, k requires 0 <= k < |s| => (s[k] as int - 32) as char)
  }
}
