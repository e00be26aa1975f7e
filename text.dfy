/** Java's String.trim() and the "null or blank after trim" test the services
    apply to required text fields. */
module Text {
  import opened Wrappers

  /** trim() removes every leading and trailing character whose code is at most
      U+0020 (space and the control characters). */
  predicate IsTrimmable(c: char) {
    c <= ' '
  }

  /** The longest suffix of s that does not start with a trimmable character. */
  function TrimStart(s: string): (r: string)
    ensures |r| <= |s| && r == s[|s| - |r|..]
    ensures r == [] || !IsTrimmable(r[0])
    ensures forall i :: 0 <= i < |s| - |r| ==> IsTrimmable(s[i])
  {
    if |s| > 0 && IsTrimmable(s[0]) then TrimStart(s[1..]) else s
  }

  /** The longest prefix of s that does not end with a trimmable character. */
  function TrimEnd(s: string): (r: string)
    ensures |r| <= |s| && r == s[..|r|]
    ensures r == [] || !IsTrimmable(r[|r| - 1])
    ensures forall i :: |r| <= i < |s| ==> IsTrimmable(s[i])
  {
    if |s| > 0 && IsTrimmable(s[|s| - 1]) then TrimEnd(s[..|s| - 1]) else s
  }

  /** s.trim() */
  function Trim(s: string): string {
    TrimEnd(TrimStart(s))
  }

  /** s.trim().isEmpty() */
  predicate IsBlank(s: string) {
    |Trim(s)| == 0
  }

  /** value == null || value.trim().isEmpty() */
  predicate IsMissing(value: Option<string>) {
    value.None? || IsBlank(value.value)
  }

  /** trim() leaves nothing exactly when every character of s is trimmable. */
  lemma {:induction false} BlankIffAllTrimmable(s: string)
    ensures IsBlank(s) <==> forall i :: 0 <= i < |s| ==> IsTrimmable(s[i])
  {
    TrimStartEmptyIff(s);
    var t := TrimStart(s);
    if |t| > 0 {
      assert !IsTrimmable(t[0]);
      var e := TrimEnd(t);
      assert e == t[..|e|];
      if |e| == 0 {
        TrimEndEmptyIff(t);
        assert false;
      }
    }
  }

  lemma {:induction false} TrimStartEmptyIff(s: string)
    ensures |TrimStart(s)| == 0 <==> forall i :: 0 <= i < |s| ==> IsTrimmable(s[i])
  {
    if |s| > 0 && IsTrimmable(s[0]) {
      TrimStartEmptyIff(s[1..]);
      assert forall i :: 1 <= i < |s| ==> s[i] == s[1..][i - 1];
    }
  }

  lemma {:induction false} TrimEndEmptyIff(s: string)
    ensures |TrimEnd(s)| == 0 <==> forall i :: 0 <= i < |s| ==> IsTrimmable(s[i])
  {
    if |s| > 0 && IsTrimmable(s[|s| - 1]) {
      TrimEndEmptyIff(s[..|s| - 1]);
      assert forall i :: 0 <= i < |s| - 1 ==> s[i] == s[..|s| - 1][i];
    }
  }

  /** A string whose first character is printable is not blank. */
  lemma PrintableStartNotBlank(s: string)
    requires |s| > 0 && !IsTrimmable(s[0])
    ensures !IsBlank(s)
  {
    BlankIffAllTrimmable(s);
  }
}
