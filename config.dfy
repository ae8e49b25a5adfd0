/**
 * Parsing of the --backend and --vsync option arguments: a case-insensitive,
 * first-match search of a NULL-terminated name table, with two legacy
 * spellings accepted for the hybrid backend and the enum's count returned
 * when nothing matches.
 *
 * The name tables BACKEND_STRS and VSYNC_STRS and the enum constants
 * BKEND_XR_GLX_HYBRID, NUM_BKEND and NUM_VSYNC are defined outside
 * src/config.h; they are parameters here. A table is a sequence of entries
 * in which None stands for the NULL terminator.
 */
module Config {
  import opened Wrappers
  import opened Log

  /** tolower in the C locale: only 'A'..'Z' change. */
  function LowerAscii(c: char): char
  {
    if 'A' <= c <= 'Z' then (c as int + 32) as char else c
  }

  /** strcasecmp(a, b) == 0: same length, equal character by character after tolower. */
  predicate EqualsIgnoreCase(a: string, b: string)
  {
    |a| == |b| && forall i :: 0 <= i < |a| ==> LowerAscii(a[i]) == LowerAscii(b[i])
  }

  /** A string with every ASCII capital replaced by its lower-case letter. */
  function FoldCase(s: string): string
  {
    seq(|s|, i requires 0 <= i < |s| => LowerAscii(s[i]))
  }

  /** strcasecmp equality is equality of the case-folded strings. */
  lemma EqualsIgnoreCaseIsFoldEquality(a: string, b: string)
    ensures EqualsIgnoreCase(a, b) <==> FoldCase(a) == FoldCase(b)
  {
    if FoldCase(a) == FoldCase(b) {
      forall i | 0 <= i < |a|
        ensures LowerAscii(a[i]) == LowerAscii(b[i])
      {
        assert FoldCase(a)[i] == FoldCase(b)[i];
      }
    }
  }

  /** The position of a table's NULL terminator. */
  function Terminator(table: seq<Option<string>>): (k: nat)
    requires None in table
    ensures k < |table| && table[k] == None
    ensures forall j :: 0 <= j < k ==> table[j].Some?
  {
    if table[0] == None then 0
    else
      assert table == [table[0]] + table[1..];
      1 + Terminator(table[1..])
  }

  /**
   * The first index in front of the terminator whose name equals str,
   * ignoring case; None when there is none.
   */
  function FirstMatch(table: seq<Option<string>>, str: string): (r: Option<nat>)
    requires None in table
    ensures r.Some? ==> r.value < Terminator(table) && EqualsIgnoreCase(str, table[r.value].value)
    ensures r.Some? ==> forall j :: 0 <= j < r.value ==> !EqualsIgnoreCase(str, table[j].value)
    ensures r.None? <==> forall j :: 0 <= j < Terminator(table) ==> !EqualsIgnoreCase(str, table[j].value)
  {
    if table[0] == None then None
    else if EqualsIgnoreCase(str, table[0].value) then Some(0)
    else
      assert table == [table[0]] + table[1..];
      match FirstMatch(table[1..], str)
      case None => None
      case Some(i) => Some(i + 1)
  }

  /**
   * Case-insensitivity: two arguments that differ only in the case of ASCII
   * letters find the same entry.
   */
  lemma FirstMatchIgnoresCase(table: seq<Option<string>>, s1: string, s2: string)
    requires None in table
    requires FoldCase(s1) == FoldCase(s2)
    ensures FirstMatch(table, s1) == FirstMatch(table, s2)
  {
    forall x: string
      ensures EqualsIgnoreCase(s1, x) <==> EqualsIgnoreCase(s2, x)
    {
      EqualsIgnoreCaseIsFoldEquality(s1, x);
      EqualsIgnoreCaseIsFoldEquality(s2, x);
    }
  }

  /**
   * Entries at and behind the terminator are never consulted: any table
   * that agrees up to and including the terminator gives the same answer.
   */
  lemma FirstMatchIgnoresTail(t1: seq<Option<string>>, t2: seq<Option<string>>, str: string)
    requires None in t1
    requires Terminator(t1) < |t2| && t2[..Terminator(t1) + 1] == t1[..Terminator(t1) + 1]
    ensures None in t2 && Terminator(t2) == Terminator(t1)
    ensures FirstMatch(t2, str) == FirstMatch(t1, str)
  {
    var k := Terminator(t1);
    forall j | 0 <= j <= k
      ensures t2[j] == t1[j]
    {
      assert t2[..k + 1][j] == t1[..k + 1][j];
    }
    assert t2[k] == None;
  }

  /** The two legacy spellings of the hybrid backend's name. */
  predicate IsHybridAlias(str: string)
  {
    EqualsIgnoreCase(str, "xr_glx_hybird") || EqualsIgnoreCase(str, "xr-glx-hybrid")
  }

  /** parse_backend rejects str: no table entry and no alias matches. */
  predicate BackendRejected(backendStrs: seq<Option<string>>, str: string)
    requires None in backendStrs
  {
    FirstMatch(backendStrs, str).None? && !IsHybridAlias(str)
  }

  /** The value parse_backend returns. */
  function BackendOf(backendStrs: seq<Option<string>>, str: string, xrGlxHybrid: nat, numBackends: nat): nat
    requires None in backendStrs
  {
    match FirstMatch(backendStrs, str)
    case Some(i) => i
    case None => if IsHybridAlias(str) then xrGlxHybrid else numBackends
  }

  /**
   * parse_backend: the first table entry equal to str ignoring case, else
   * BKEND_XR_GLX_HYBRID for either legacy spelling, else NUM_BKEND with one
   * error message.
   */
  method ParseBackend(backendStrs: seq<Option<string>>, str: string, xrGlxHybrid: nat, numBackends: nat)
    returns (b: nat, logged: seq<Record>)
    requires None in backendStrs
    ensures b == BackendOf(backendStrs, str, xrGlxHybrid, numBackends)
    ensures logged == if BackendRejected(backendStrs, str)
      then [Record(Error, "parse_backend", InvalidBackend(str))] else []
  {
    var i := 0;
    while backendStrs[i].Some?
      invariant 0 <= i <= Terminator(backendStrs)
      invariant forall j :: 0 <= j < i ==> !EqualsIgnoreCase(str, backendStrs[j].value)
      decreases Terminator(backendStrs) - i
    {
      if EqualsIgnoreCase(str, backendStrs[i].value) {
        return i, [];
      }
      i := i + 1;
    }
    // Compatibility with an old revision's misspelling.
    if EqualsIgnoreCase(str, "xr_glx_hybird") {
      return xrGlxHybrid, [];
    }
    // The same name written with dashes.
    if EqualsIgnoreCase(str, "xr-glx-hybrid") {
      return xrGlxHybrid, [];
    }
    return numBackends, [Record(Error, "parse_backend", InvalidBackend(str))];
  }

  /**
   * When NUM_BKEND is the terminator's position (the enum counts the table)
   * and BKEND_XR_GLX_HYBRID is one of the enum's backends, parse_backend
   * returns the sentinel exactly when it rejects the argument, and a backend
   * below the sentinel otherwise.
   */
  lemma ParseBackendSentinel(backendStrs: seq<Option<string>>, str: string, xrGlxHybrid: nat, numBackends: nat)
    requires None in backendStrs
    requires numBackends == Terminator(backendStrs) && xrGlxHybrid < numBackends
    ensures BackendOf(backendStrs, str, xrGlxHybrid, numBackends) == numBackends
      <==> BackendRejected(backendStrs, str)
    ensures !BackendRejected(backendStrs, str) ==>
      BackendOf(backendStrs, str, xrGlxHybrid, numBackends) < numBackends
  {
  }

  /** parse_backend gives the same answer for arguments differing only in letter case. */
  lemma ParseBackendIgnoresCase(backendStrs: seq<Option<string>>, s1: string, s2: string, xrGlxHybrid: nat, numBackends: nat)
    requires None in backendStrs
    requires FoldCase(s1) == FoldCase(s2)
    ensures BackendOf(backendStrs, s1, xrGlxHybrid, numBackends) == BackendOf(backendStrs, s2, xrGlxHybrid, numBackends)
    ensures BackendRejected(backendStrs, s1) == BackendRejected(backendStrs, s2)
  {
    FirstMatchIgnoresCase(backendStrs, s1, s2);
    EqualsIgnoreCaseIsFoldEquality(s1, "xr_glx_hybird");
    EqualsIgnoreCaseIsFoldEquality(s2, "xr_glx_hybird");
    EqualsIgnoreCaseIsFoldEquality(s1, "xr-glx-hybrid");
    EqualsIgnoreCaseIsFoldEquality(s2, "xr-glx-hybrid");
  }

  /** The value parse_vsync returns. */
  function VsyncOf(vsyncStrs: seq<Option<string>>, str: string, numVsync: nat): nat
    requires None in vsyncStrs
  {
    match FirstMatch(vsyncStrs, str)
    case Some(i) => i
    case None => numVsync
  }

  /**
   * parse_vsync: the first table entry equal to str ignoring case, else
   * NUM_VSYNC with one error message.
   */
  method ParseVsync(vsyncStrs: seq<Option<string>>, str: string, numVsync: nat)
    returns (v: nat, logged: seq<Record>)
    requires None in vsyncStrs
    ensures v == VsyncOf(vsyncStrs, str, numVsync)
    ensures logged == if FirstMatch(vsyncStrs, str).None?
      then [Record(Error, "parse_vsync", InvalidVsync(str))] else []
  {
    var i := 0;
    while vsyncStrs[i].Some?
      invariant 0 <= i <= Terminator(vsyncStrs)
      invariant forall j :: 0 <= j < i ==> !EqualsIgnoreCase(str, vsyncStrs[j].value)
      decreases Terminator(vsyncStrs) - i
    {
      if EqualsIgnoreCase(str, vsyncStrs[i].value) {
        return i, [];
      }
      i := i + 1;
    }
    return numVsync, [Record(Error, "parse_vsync", InvalidVsync(str))];
  }

  /**
   * When NUM_VSYNC is the terminator's position, parse_vsync returns the
   * sentinel exactly when no entry matches, and an index below it otherwise.
   */
  lemma ParseVsyncSentinel(vsyncStrs: seq<Option<string>>, str: string, numVsync: nat)
    requires None in vsyncStrs
    requires numVsync == Terminator(vsyncStrs)
    ensures VsyncOf(vsyncStrs, str, numVsync) == numVsync <==> FirstMatch(vsyncStrs, str).None?
    ensures FirstMatch(vsyncStrs, str).Some? ==> VsyncOf(vsyncStrs, str, numVsync) < numVsync
  {
  }

  /** parse_vsync gives the same answer for arguments differing only in letter case. */
  lemma ParseVsyncIgnoresCase(vsyncStrs: seq<Option<string>>, s1: string, s2: string, numVsync: nat)
    requires None in vsyncStrs
    requires FoldCase(s1) == FoldCase(s2)
    ensures VsyncOf(vsyncStrs, s1, numVsync) == VsyncOf(vsyncStrs, s2, numVsync)
  {
    FirstMatchIgnoresCase(vsyncStrs, s1, s2);
  }
}
