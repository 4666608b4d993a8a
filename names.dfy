/**
 * The source of fresh variable names the expression breaker draws from.
 * `newName("")` returns `_k` for the least suffix k >= 1 such that `_k` is
 * not yet used, and records it as used.
 */
module Names {

  function DigitChar(d: nat): char
    requires d < 10
  {
    "0123456789"[d]
  }

  /** Decimal digits of `n`, most significant first. */
  function Digits(n: nat): (s: string)
    ensures |s| >= 1
    ensures n < 10 <==> |s| == 1
  {
    if n < 10 then [DigitChar(n)] else Digits(n / 10) + [DigitChar(n % 10)]
  }

  /** The name with suffix k and the empty prefix. */
  function SuffixName(k: nat): string {
    "_" + Digits(k)
  }

  lemma {:induction false} DigitsInjective(a: nat, b: nat)
    requires Digits(a) == Digits(b)
    ensures a == b
  {
    var da, db := Digits(a), Digits(b);
    if a >= 10 && b >= 10 {
      assert Digits(a / 10) == da[..|da| - 1] == db[..|db| - 1] == Digits(b / 10);
      DigitsInjective(a / 10, b / 10);
      assert DigitChar(a % 10) == da[|da| - 1] == db[|db| - 1] == DigitChar(b % 10);
    } else {
      assert a < 10 && b < 10;
      assert DigitChar(a) == da[0] == db[0] == DigitChar(b);
    }
  }

  /** Distinct suffixes give distinct names. */
  lemma SuffixNameInjective(a: nat, b: nat)
    ensures SuffixName(a) == SuffixName(b) ==> a == b
  {
    if SuffixName(a) == SuffixName(b) {
      assert Digits(a) == SuffixName(a)[1..] == SuffixName(b)[1..] == Digits(b);
      DigitsInjective(a, b);
    }
  }

  /** The names with suffix 1 up to (not including) k. */
  ghost function Taken(k: nat): set<string> {
    set j | 1 <= j < k :: SuffixName(j)
  }

  lemma TakenStep(used: set<string>, k: nat)
    requires k >= 1 && Taken(k) <= used && SuffixName(k) in used
    ensures Taken(k + 1) <= used
    ensures |used - Taken(k + 1)| < |used - Taken(k)|
  {
    assert Taken(k + 1) == Taken(k) + {SuffixName(k)};
    forall j | 1 <= j < k ensures SuffixName(j) != SuffixName(k) {
      SuffixNameInjective(j, k);
    }
    assert SuffixName(k) !in Taken(k);
    assert used - Taken(k + 1) == (used - Taken(k)) - {SuffixName(k)};
  }

  /** The least suffix from k on whose name is unused. */
  function FreeSuffix(used: set<string>, k: nat): (r: nat)
    requires k >= 1
    requires forall j :: 1 <= j < k ==> SuffixName(j) in used
    ensures r >= k && SuffixName(r) !in used
    ensures forall j :: 1 <= j < r ==> SuffixName(j) in used
    decreases |used - Taken(k)|
  {
    if SuffixName(k) !in used then k
    else
      TakenStep(used, k);
      FreeSuffix(used, k + 1)
  }

  /** The name `newName("")` returns when `used` is the set of used names. */
  function Fresh(used: set<string>): (v: string)
    ensures v !in used
  {
    SuffixName(FreeSuffix(used, 1))
  }

  /** Two suffixes that are both the least free one are equal. */
  lemma LeastFreeUnique(used: set<string>, a: nat, b: nat)
    requires a >= 1 && SuffixName(a) !in used && forall j :: 1 <= j < a ==> SuffixName(j) in used
    requires b >= 1 && SuffixName(b) !in used && forall j :: 1 <= j < b ==> SuffixName(j) in used
    ensures a == b
  {
  }

  /** The stateful name dispenser: the set of names already in use, seeded
      with every name of the program and grown by each name it hands out. */
  class NameDispenser {
    var used: set<string>

    constructor (used: set<string>)
      ensures this.used == used
    {
      this.used := used;
    }

    method NewName() returns (name: string)
      modifies this
      ensures name == Fresh(old(used)) && name !in old(used)
      ensures used == old(used) + {name}
    {
      var taken := used;
      var suffix: nat := 0;
      name := "";
      while name == "" || name in taken
        invariant name == if suffix == 0 then "" else SuffixName(suffix)
        invariant forall j :: 1 <= j < suffix ==> SuffixName(j) in taken
        invariant Taken(suffix) <= taken
        decreases |taken - Taken(suffix)|, if suffix == 0 then 1 else 0
      {
        if suffix >= 1 {
          TakenStep(taken, suffix);
        } else {
          assert Taken(1) == {} == Taken(0);
        }
        suffix := suffix + 1;
        name := SuffixName(suffix);
      }
      LeastFreeUnique(taken, suffix, FreeSuffix(taken, 1));
      used := taken + {name};
    }
  }
}
