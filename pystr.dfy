/** The Python `str` operations the profile pipeline relies on: `in`, `split`,
    `join`, `strip` and `endswith`, each with the meaning CPython gives it. */
module PyStr {
  import opened Outcomes

  /** `t` occurs in `s` starting at index `i`. */
  predicate OccursAt(s: string, t: string, i: int)
  {
    0 <= i && i + |t| <= |s| && s[i..i + |t|] == t
  }

  /** `i` is the leftmost occurrence of `t` in `s`. */
  predicate FirstOccursAt(s: string, t: string, i: int)
  {
    OccursAt(s, t, i) && forall j :: 0 <= j < i ==> !OccursAt(s, t, j)
  }

  lemma OccursShift(s: string, t: string, j: int)
    requires |s| > 0 && j >= 1
    ensures OccursAt(s, t, j) <==> OccursAt(s[1..], t, j - 1)
  {
  }

  /** `s.find(t)`, with `None` for CPython's -1: the leftmost index at which `t` occurs. */
  function Find(s: string, t: string): (r: Option<nat>)
    ensures r.Some? ==> FirstOccursAt(s, t, r.value)
    ensures r.None? ==> forall j :: !OccursAt(s, t, j)
    decreases |s|
  {
    if |s| < |t| then None
    else if s[..|t|] == t then Some(0)
    else
      var rest := Find(s[1..], t);
      assert !OccursAt(s, t, 0);
      assert forall j :: j >= 1 ==> (OccursAt(s, t, j) <==> OccursAt(s[1..], t, j - 1)) by {
        forall j | j >= 1 { OccursShift(s, t, j); }
      }
      match rest
      case None => None
      case Some(i) => Some(i + 1)
  }

  /** Python's `t in s`. */
  predicate Contains(s: string, t: string)
  {
    Find(s, t).Some?
  }

  /** `in` holds exactly when some occurrence exists; `find` reports the leftmost one. */
  lemma ContainsIff(s: string, t: string, i: int)
    ensures OccursAt(s, t, i) ==> Contains(s, t)
    ensures FirstOccursAt(s, t, i) ==> Find(s, t) == Some(i)
  {
  }

  /** A one-character needle occurs exactly when the character does. */
  lemma ContainsChar(s: string, c: char)
    ensures Contains(s, [c]) <==> c in s
  {
    if c in s {
      var i :| 0 <= i < |s| && s[i] == c;
      assert s[i..i + 1] == [c];
      ContainsIff(s, [c], i);
    }
    if Contains(s, [c]) {
      var i := Find(s, [c]).value;
      assert s[i..i + 1][0] == s[i];
    }
  }

  /** An occurrence survives putting text in front of or behind the string. */
  lemma OccursInContext(a: string, s: string, b: string, t: string, o: int)
    requires OccursAt(s, t, o)
    ensures OccursAt(a + s + b, t, |a| + o)
  {
  }

  /** An occurrence inside an occurrence is an occurrence. */
  lemma OccursWithin(s: string, t: string, u: string, o1: int, o2: int)
    requires OccursAt(s, t, o1) && OccursAt(t, u, o2)
    ensures OccursAt(s, u, o1 + o2)
  {
    var inner := s[o1 + o2..o1 + o2 + |u|];
    forall k | 0 <= k < |u|
      ensures inner[k] == u[k]
    {
      assert inner[k] == s[o1..o1 + |t|][o2 + k] == t[o2 + k];
      assert t[o2 + k] == t[o2..o2 + |u|][k];
    }
    assert inner == u;
  }

  /** Every piece of a join occurs in it. */
  lemma {:induction false} JoinHasPart(sep: string, parts: seq<string>, i: int) returns (o: nat)
    requires 0 <= i < |parts|
    ensures OccursAt(Join(sep, parts), parts[i], o)
    ensures Contains(Join(sep, parts), parts[i])
  {
    if |parts| == 1 {
      o := 0;
      assert parts[0][0..|parts[0]|] == parts[0];
    } else if i == 0 {
      o := 0;
      OccursInContext("", parts[0], sep + Join(sep, parts[1..]), parts[0], 0) by {
        assert parts[0][0..|parts[0]|] == parts[0];
      }
      assert "" + parts[0] + (sep + Join(sep, parts[1..])) == Join(sep, parts);
    } else {
      var o' := JoinHasPart(sep, parts[1..], i - 1);
      OccursInContext(parts[0] + sep, Join(sep, parts[1..]), "", parts[i], o');
      assert parts[0] + sep + Join(sep, parts[1..]) + "" == Join(sep, parts);
      o := |parts[0] + sep| + o';
    }
    ContainsIff(Join(sep, parts), parts[i], o);
  }

  /** Python's `s.endswith(suffix)`, which is case-sensitive. */
  predicate EndsWith(s: string, suffix: string)
  {
    |suffix| <= |s| && s[|s| - |suffix|..] == suffix
  }

  /** Python's `sep.join(parts)`. */
  function Join(sep: string, parts: seq<string>): string
  {
    if |parts| == 0 then ""
    else if |parts| == 1 then parts[0]
    else parts[0] + sep + Join(sep, parts[1..])
  }

  /** Python's `s.split(sep)` for a non-empty separator: the pieces between the
      non-overlapping occurrences of `sep`, scanned from the left. */
  function Split(s: string, sep: string): (parts: seq<string>)
    requires |sep| > 0
    ensures |parts| >= 1
    ensures Join(sep, parts) == s
    ensures forall k :: 0 <= k < |parts| ==> !Contains(parts[k], sep)
    ensures !Contains(s, sep) ==> parts == [s]
    ensures Contains(s, sep) ==> |parts| >= 2
    decreases |s|
  {
    match Find(s, sep)
    case None => [s]
    case Some(i) =>
      var rest := Split(s[i + |sep|..], sep);
      var parts := [s[..i]] + rest;
      assert parts[1..] == rest;
      assert s == s[..i] + sep + s[i + |sep|..];
      assert !Contains(s[..i], sep) by {
        if Contains(s[..i], sep) {
          var j := Find(s[..i], sep).value;
          assert s[..i][j..j + |sep|] == s[j..j + |sep|];
          assert OccursAt(s, sep, j);
          assert false;
        }
      }
      parts
  }

  /** The first piece of a split is the text before the leftmost separator. */
  lemma SplitHead(s: string, sep: string, i: int)
    requires |sep| > 0 && FirstOccursAt(s, sep, i)
    ensures |Split(s, sep)| >= 2
    ensures Split(s, sep)[0] == s[..i]
    ensures Split(s, sep)[1..] == Split(s[i + |sep|..], sep)
  {
  }

  /** Number of occurrences of character `c` in `s`. */
  function Count(s: string, c: char): nat
  {
    if |s| == 0 then 0 else (if s[0] == c then 1 else 0) + Count(s[1..], c)
  }

  lemma {:induction false} CountConcat(a: string, b: string, c: char)
    ensures Count(a + b, c) == Count(a, c) + Count(b, c)
  {
    if |a| > 0 {
      assert (a + b)[1..] == a[1..] + b;
      CountConcat(a[1..], b, c);
    } else {
      assert a + b == b;
    }
  }

  /** Joining n pieces with a one-character separator puts at least n - 1 copies
      of that character into the result. */
  lemma {:induction false} JoinCount(c: char, parts: seq<string>)
    ensures Count(Join([c], parts), c) >= |parts| - 1
  {
    if |parts| >= 2 {
      JoinCount(c, parts[1..]);
      CountConcat(parts[0], [c], c);
      CountConcat(parts[0] + [c], Join([c], parts[1..]), c);
      assert Count([c], c) == 1 by { assert [c][1..] == ""; }
    }
  }

  /** A string without the character holds no copy of it. */
  lemma {:induction false} NoCharNoCount(s: string, c: char)
    requires c !in s
    ensures Count(s, c) == 0
  {
    if |s| > 0 {
      NoCharNoCount(s[1..], c);
    }
  }

  /** Joining n >= 1 empty pieces with a one-character separator gives n - 1
      copies of that character. */
  lemma {:induction false} JoinOfEmpties(c: char, n: nat)
    requires n >= 1
    ensures Join([c], seq(n, _ => "")) == seq(n - 1, _ => c)
  {
    if n > 1 {
      JoinOfEmpties(c, n - 1);
      assert seq(n, _ => "")[1..] == seq(n - 1, _ => "");
      assert [c] + seq(n - 2, _ => c) == seq(n - 1, _ => c);
    }
  }

  /** A join is empty exactly when there is nothing to join or a single empty piece. */
  lemma JoinEmptyIff(sep: string, parts: seq<string>)
    requires |sep| > 0
    ensures Join(sep, parts) == "" <==> |parts| == 0 || (|parts| == 1 && parts[0] == "")
  {
  }

  /** Splitting a join on a one-character separator that no piece contains gives
      the pieces back. */
  lemma {:induction false} SplitJoin(c: char, parts: seq<string>)
    requires |parts| >= 1
    requires forall k :: 0 <= k < |parts| ==> c !in parts[k]
    ensures Split(Join([c], parts), [c]) == parts
  {
    var s := Join([c], parts);
    if |parts| == 1 {
      ContainsChar(s, c);
    } else {
      var i := |parts[0]|;
      var tail := Join([c], parts[1..]);
      assert s == parts[0] + [c] + tail;
      assert s[i..i + 1] == [c];
      forall j | 0 <= j < i
        ensures !OccursAt(s, [c], j)
      {
        assert s[j] == parts[0][j];
        assert s[j..j + 1][0] == s[j];
      }
      assert FirstOccursAt(s, [c], i);
      SplitHead(s, [c], i);
      assert s[i + 1..] == tail;
      SplitJoin(c, parts[1..]);
      assert Split(s, [c]) == [parts[0]] + parts[1..];
    }
  }

  /** Python's `str.isspace` for one character: the Unicode whitespace that
      `str.strip()` removes. */
  predicate IsSpace(c: char)
  {
    ('\t' <= c <= '\r') || ('\U{1C}' <= c <= '\U{1F}') || c == ' ' || c == '\U{85}' ||
    c == '\U{A0}' || c == '\U{1680}' || ('\U{2000}' <= c <= '\U{200A}') ||
    c == '\U{2028}' || c == '\U{2029}' || c == '\U{202F}' || c == '\U{205F}' || c == '\U{3000}'
  }

  /** Length of the whitespace run at the front of `s`. */
  function LeadingSpaces(s: string): (n: nat)
    ensures n <= |s|
    ensures forall k :: 0 <= k < n ==> IsSpace(s[k])
    ensures n < |s| ==> !IsSpace(s[n])
  {
    if |s| > 0 && IsSpace(s[0]) then
      var n := 1 + LeadingSpaces(s[1..]);
      assert forall k :: 1 <= k < n ==> s[k] == s[1..][k - 1];
      n
    else 0
  }

  /** Length of the whitespace run at the end of `s`. */
  function TrailingSpaces(s: string): (n: nat)
    ensures n <= |s|
    ensures forall k :: |s| - n <= k < |s| ==> IsSpace(s[k])
    ensures n < |s| ==> !IsSpace(s[|s| - 1 - n])
  {
    if |s| > 0 && IsSpace(s[|s| - 1]) then
      var n := 1 + TrailingSpaces(s[..|s| - 1]);
      assert forall k :: |s| - n <= k < |s| - 1 ==> s[k] == s[..|s| - 1][k];
      n
    else 0
  }

  /** Python's `s.strip()`: drop the whitespace at both ends. */
  function Strip(s: string): string
  {
    var lead := s[LeadingSpaces(s)..];
    lead[..|lead| - TrailingSpaces(lead)]
  }

  /** `s[a..b]` is `s` with its surrounding whitespace removed: everything
      outside the window is whitespace and the window neither starts nor ends
      with whitespace. */
  predicate TrimWindow(s: string, a: int, b: int)
  {
    0 <= a <= b <= |s| &&
    (forall k :: 0 <= k < a ==> IsSpace(s[k])) &&
    (forall k :: b <= k < |s| ==> IsSpace(s[k])) &&
    (a < b ==> !IsSpace(s[a]) && !IsSpace(s[b - 1]))
  }

  /** `strip()` returns the unique trimmed window of its argument. */
  lemma StripWindow(s: string, a: int, b: int)
    requires TrimWindow(s, a, b)
    ensures Strip(s) == s[a..b]
  {
  }

  /** The window that `strip()` keeps always exists. */
  lemma StripHasWindow(s: string) returns (a: nat, b: nat)
    ensures TrimWindow(s, a, b)
    ensures Strip(s) == s[a..b]
  {
    var n := LeadingSpaces(s);
    var lead := s[n..];
    var m := TrailingSpaces(lead);
    a, b := n, n + |lead| - m;
    if a < b {
      assert s[a] == lead[0];
      assert s[b - 1] == lead[|lead| - 1 - m];
    }
    forall k | b <= k < |s| ensures IsSpace(s[k]) { assert s[k] == lead[k - n]; }
  }

  /** `strip()` leaves no whitespace at either end, and applying it twice changes nothing. */
  lemma StripProperties(s: string)
    ensures Strip(s) == "" || (!IsSpace(Strip(s)[0]) && !IsSpace(Strip(s)[|Strip(s)| - 1]))
    ensures Strip(Strip(s)) == Strip(s)
  {
  }
}
