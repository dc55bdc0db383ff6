/// Record identifiers (lib/kmz-parser.ts): `generateId` and the collision
/// loop of the record builder that appends `-2`, `-3`, … to a taken id and
/// cuts the result back to 50 characters.
module Ids {
  import opened Strings
  import opened Numbers

  const MaxIdLength: nat := 50

  predicate IsIdChar(c: char)
  {
    'a' <= c <= 'z' || IsDigit(c) || c == '-'
  }

  predicate AllIdChars(s: string)
  {
    forall i :: 0 <= i < |s| ==> IsIdChar(s[i])
  }

  predicate NoDoubleDash(s: string)
  {
    forall i :: 0 <= i < |s| - 1 ==> !(s[i] == '-' && s[i + 1] == '-')
  }

  /** `.replace(/[^a-z0-9-]/g, "-")`: every character outside the id
      alphabet becomes a dash, the others stay where they are. */
  function Sanitize(s: string): (r: string)
    ensures |r| == |s| && AllIdChars(r)
    ensures forall i :: 0 <= i < |s| && IsIdChar(s[i]) ==> r[i] == s[i]
  {
    seq(|s|, i requires 0 <= i < |s| => if IsIdChar(s[i]) then s[i] else '-')
  }

  /** `.replace(/-+/g, "-")`: every run of dashes becomes a single dash. */
  function CollapseDashes(s: string): (r: string)
    ensures |r| <= |s| && (s != [] ==> r != [] && r[0] == s[0])
    ensures NoDoubleDash(r)
    ensures AllIdChars(s) ==> AllIdChars(r)
  {
    if |s| <= 1 then s
    else if s[0] == '-' && s[1] == '-' then CollapseDashes(s[1..])
    else [s[0]] + CollapseDashes(s[1..])
  }

  /** The characters of `s` other than dashes, in order. */
  function RemoveDashes(s: string): string
  {
    if s == [] then [] else (if s[0] == '-' then [] else [s[0]]) + RemoveDashes(s[1..])
  }

  /** Collapsing only removes dashes: every other character survives, in
      order. */
  lemma {:induction false} CollapseKeepsNonDashes(s: string)
    ensures RemoveDashes(CollapseDashes(s)) == RemoveDashes(s)
  {
    if |s| > 1 {
      CollapseKeepsNonDashes(s[1..]);
      if !(s[0] == '-' && s[1] == '-') {
        var r := CollapseDashes(s[1..]);
        assert ([s[0]] + r)[1..] == r;
      }
    }
  }

  /** A string without a double dash is left alone, so collapsing twice is
      collapsing once. */
  lemma {:induction false} CollapseFixesNoDoubleDash(s: string)
    requires NoDoubleDash(s)
    ensures CollapseDashes(s) == s
  {
    if |s| > 1 {
      assert NoDoubleDash(s[1..]) by {
        forall i | 0 <= i < |s[1..]| - 1 ensures !(s[1..][i] == '-' && s[1..][i + 1] == '-') {
          assert s[1..][i] == s[i + 1] && s[1..][i + 1] == s[i + 2];
        }
      }
      CollapseFixesNoDoubleDash(s[1..]);
      assert !(s[0] == '-' && s[1] == '-');
      assert [s[0]] + s[1..] == s;
    }
  }

  /** Each run of dashes becomes one dash: a double dash anywhere collapses
      exactly as a single dash there would. With `CollapseFixesNoDoubleDash`
      this determines the function. */
  lemma {:induction false} CollapseRun(x: string, y: string)
    ensures CollapseDashes(x + "--" + y) == CollapseDashes(x + "-" + y)
  {
    if x == [] {
      assert (x + "--" + y)[1..] == x + "-" + y;
    } else {
      var s, t := x + "--" + y, x + "-" + y;
      assert s[0] == t[0] == x[0] && s[1] == t[1];
      CollapseRun(x[1..], y);
      assert s[1..] == x[1..] + "--" + y && t[1..] == x[1..] + "-" + y;
    }
  }

  lemma CollapseIdempotent(s: string)
    ensures CollapseDashes(CollapseDashes(s)) == CollapseDashes(s)
  {
    CollapseFixesNoDoubleDash(CollapseDashes(s));
  }

  /** `.substring(0, n)`. */
  function Truncate(s: string, n: nat): (r: string)
    ensures |r| <= n && |r| <= |s| && r == s[..|r|]
    ensures |s| <= n ==> r == s
  {
    if |s| <= n then s else s[..n]
  }

  predicate IsValidId(id: string)
  {
    |id| <= MaxIdLength && AllIdChars(id) && NoDoubleDash(id)
  }

  /** `generateId`: the name, latitude and longitude (each through
      `toFixed(4)`) joined by dashes, lower-cased, with every character
      outside `[a-z0-9-]` turned into a dash, runs of dashes collapsed and the
      whole cut to 50 characters. */
  function GenerateId(name: string, latitude: real, longitude: real): (id: string)
    ensures IsValidId(id)
  {
    var base := name + "-" + ToFixed4(latitude) + "-" + ToFixed4(longitude);
    Truncate(CollapseDashes(Sanitize(Lower(base))), MaxIdLength)
  }

  // ---------------------------------------------------------------------------
  // The collision loop

  /** The id the loop tries with counter value `k`: the base id itself for
      `k == 1`, otherwise `${baseId}-${k}` cut to 50 characters. */
  function Candidate(baseId: string, k: nat): (id: string)
    requires k >= 1
    ensures |id| <= MaxIdLength || id == baseId
    ensures AllIdChars(baseId) ==> AllIdChars(id)
  {
    if k == 1 then baseId else Truncate(baseId + "-" + NatToString(k), MaxIdLength)
  }

  /** The loop `while (seenIds.has(id))` exits: some candidate is free. */
  ghost predicate LoopExits(baseId: string, seen: set<string>)
  {
    exists k :: k >= 1 && Candidate(baseId, k) !in seen
  }

  /** A counter bound past which no new candidate appears. */
  function SearchBound(baseId: string): (b: nat)
    ensures b >= 10
  {
    if |baseId| >= 48 then 10 else Pow10(49 - |baseId|)
  }

  /** The least counter in `[k, SearchBound(baseId)]` whose candidate is free,
      or 0 when there is none. */
  function FirstFree(baseId: string, seen: set<string>, k: nat): (r: nat)
    requires k >= 1
    ensures r == 0 ==> forall j :: k <= j <= SearchBound(baseId) ==> Candidate(baseId, j) in seen
    ensures r != 0 ==> k <= r <= SearchBound(baseId) && Candidate(baseId, r) !in seen
    ensures r != 0 ==> forall j :: k <= j < r ==> Candidate(baseId, j) in seen
    decreases if k <= SearchBound(baseId) then SearchBound(baseId) + 1 - k else 0
  {
    if k > SearchBound(baseId) then 0
    else if Candidate(baseId, k) !in seen then k
    else FirstFree(baseId, seen, k + 1)
  }

  // Arithmetic about decimal renderings used by the bound.

  lemma {:induction false} Pow10Monotone(a: nat, b: nat)
    requires a <= b
    ensures Pow10(a) <= Pow10(b)
    decreases b
  {
    if a < b { Pow10Monotone(a, b - 1); }
  }

  /** `n` has at most `m` digits exactly when it is below `10^m`. */
  lemma {:induction false} NatToStringLength(n: nat, m: nat)
    requires m >= 1
    ensures n < Pow10(m) <==> |NatToString(n)| <= m
    decreases n
  {
    Pow10Monotone(1, m);
    if n >= 10 {
      if m >= 2 {
        NatToStringLength(n / 10, m - 1);
      }
    }
  }

  /** `k` with its last `m` decimal digits dropped. */
  function DropDigits(k: nat, m: nat): nat
  {
    if m == 0 then k else DropDigits(k / 10, m - 1)
  }

  /** Keeping the first digits of a positive `k` renders `k` with its last
      digits dropped, which is still positive. */
  lemma {:induction false} NatToStringPrefix(k: nat, m: nat)
    requires k >= 1 && m < |NatToString(k)|
    ensures NatToString(k)[..|NatToString(k)| - m] == NatToString(DropDigits(k, m))
    ensures DropDigits(k, m) >= 1
    decreases m
  {
    var s := NatToString(k);
    if m > 0 {
      assert k >= 10;
      var s' := NatToString(k / 10);
      assert s == s' + [DigitChar(k % 10)];
      NatToStringPrefix(k / 10, m - 1);
      assert s[..|s| - m] == s'[..|s'| - (m - 1)];
    } else {
      assert s[..|s|] == s;
    }
  }

  /** Every candidate is already produced by a counter within the bound. */
  lemma CandidateRepresentative(baseId: string, k: nat) returns (j: nat)
    requires k >= 1
    ensures 1 <= j <= SearchBound(baseId) && Candidate(baseId, j) == Candidate(baseId, k)
  {
    if k <= SearchBound(baseId) {
      return k;
    }
    var s := NatToString(k);
    if |baseId| >= 49 {
      assert Candidate(baseId, k) == (baseId + "-")[..MaxIdLength] by {
        assert (baseId + "-" + s)[..MaxIdLength] == (baseId + "-")[..MaxIdLength];
      }
      assert Candidate(baseId, 2) == (baseId + "-")[..MaxIdLength] by {
        assert (baseId + "-" + NatToString(2))[..MaxIdLength] == (baseId + "-")[..MaxIdLength];
      }
      return 2;
    }
    var L: nat := 49 - |baseId|;
    assert SearchBound(baseId) == Pow10(L);
    NatToStringLength(k, L);
    assert |s| > L;
    assert Candidate(baseId, k) == baseId + "-" + s[..L] by {
      assert (baseId + "-" + s)[..MaxIdLength] == baseId + "-" + s[..L];
    }
    var m: nat := |s| - L;
    var k' := DropDigits(k, m);
    NatToStringPrefix(k, m);
    assert NatToString(k') == s[..L];
    NatToStringLength(k', L);
    assert k' < Pow10(L);
    if k' >= 2 {
      assert Candidate(baseId, k') == baseId + "-" + NatToString(k');
      return k';
    } else {
      assert s[..L] == "1" && L == 1;
      assert Candidate(baseId, 10) == baseId + "-1" by {
        assert NatToString(10) == "10";
        assert (baseId + "-" + "10")[..MaxIdLength] == baseId + "-1";
      }
      return 10;
    }
  }

  /** The loop exits exactly when a free candidate lies within the bound, so
      `FirstFree` decides termination of the source's loop. */
  lemma LoopExitsDecided(baseId: string, seen: set<string>)
    ensures LoopExits(baseId, seen) <==> FirstFree(baseId, seen, 1) != 0
  {
    if LoopExits(baseId, seen) {
      var k :| k >= 1 && Candidate(baseId, k) !in seen;
      var j := CandidateRepresentative(baseId, k);
    }
  }

  /** The collision loop: starting from the base id, bump the counter until
      the candidate is not in `seen`. It returns the first free candidate. */
  method AssignId(baseId: string, seen: set<string>) returns (id: string)
    requires LoopExits(baseId, seen)
    ensures id !in seen
    ensures FirstFree(baseId, seen, 1) != 0 && id == Candidate(baseId, FirstFree(baseId, seen, 1))
  {
    id := baseId;
    var suffix := 1;
    ghost var k :| k >= 1 && Candidate(baseId, k) !in seen;
    while id in seen
      invariant 1 <= suffix <= k
      invariant id == Candidate(baseId, suffix)
      invariant forall j :: 1 <= j < suffix ==> Candidate(baseId, j) in seen
      decreases k - suffix
    {
      suffix := suffix + 1;
      id := Truncate(baseId + "-" + NatToString(suffix), MaxIdLength);
    }
    var j := CandidateRepresentative(baseId, suffix);
    assert suffix <= SearchBound(baseId);
    LeastFree(baseId, seen, suffix);
  }

  /** The least free counter is what `FirstFree` finds. */
  lemma LeastFree(baseId: string, seen: set<string>, n: nat)
    requires 1 <= n <= SearchBound(baseId) && Candidate(baseId, n) !in seen
    requires forall j :: 1 <= j < n ==> Candidate(baseId, j) in seen
    ensures FirstFree(baseId, seen, 1) == n
  {
  }

  /** A base id of 49 or more characters has only two candidates, itself and
      itself followed by a dash (cut to 50 characters): once both are taken,
      the collision loop never exits. */
  lemma LongBaseDiverges(baseId: string, seen: set<string>)
    requires |baseId| >= 49
    requires baseId in seen && Candidate(baseId, 2) in seen
    ensures !LoopExits(baseId, seen)
  {
    forall k | k >= 1
      ensures Candidate(baseId, k) in seen
    {
      if k >= 2 {
        assert (baseId + "-" + NatToString(k))[..MaxIdLength] == (baseId + "-")[..MaxIdLength];
        assert (baseId + "-" + NatToString(2))[..MaxIdLength] == (baseId + "-")[..MaxIdLength];
      }
    }
  }
}
