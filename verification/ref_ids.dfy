/**
 * The keys under which the scheduler keeps each step's actor
 * (src/workflow/workflow-factory.ts, `stepRefId` and `undoStepRefId`),
 * and the text a JavaScript template literal makes of an integer.
 */
module RefIds {

  /** `stepRefId`: a step's id followed by "Ref". */
  function StepRefId(id: string): string {
    id + "Ref"
  }

  /** "Ref" occurs in `s` starting at position `i`. */
  predicate RefAt(s: string, i: nat) {
    i + 3 <= |s| && s[i..i + 3] == "Ref"
  }

  predicate ContainsRef(s: string) {
    exists i: nat | i < |s| :: RefAt(s, i)
  }

  /**
   * `undoStepRefId`: `refId.split('Ref')[0]`, the text before the first
   * occurrence of "Ref", or all of `refId` when there is none.
   */
  function UndoStepRefId(refId: string): (r: string)
    ensures r <= refId
    ensures !ContainsRef(r)
    ensures r == refId || RefAt(refId, |r|)
    decreases |refId|
  {
    if |refId| < 3 then refId
    else if refId[..3] == "Ref" then ""
    else
      var rest := UndoStepRefId(refId[1..]);
      var r := [refId[0]] + rest;
      assert !RefAt(r, 0) by {
        assert |r| >= 3 ==> r[..3] == refId[..3];
      }
      forall i: nat | 0 < i < |r|
        ensures !RefAt(r, i)
      {
        assert !RefAt(rest, i - 1);
        assert i + 3 <= |r| ==> r[i..i + 3] == rest[i - 1..i + 2];
      }
      assert rest != refId[1..] ==> RefAt(refId, |rest| + 1) by {
        if rest != refId[1..] {
          assert refId[|rest| + 1..|rest| + 4] == refId[1..][|rest|..|rest| + 3];
        }
      }
      r
  }

  /** Distinct steps have distinct actor keys. */
  lemma StepRefIdInjective(a: string, b: string)
    requires StepRefId(a) == StepRefId(b)
    ensures a == b
  {
    assert a == StepRefId(a)[..|a|];
    assert b == StepRefId(b)[..|b|];
  }

  /** In `id + "Ref"`, no "Ref" starts before the suffix when `id` has none. */
  lemma NoEarlyRef(id: string, k: nat)
    requires !ContainsRef(id) && k < |id|
    ensures !RefAt(StepRefId(id), k)
  {
    var s := StepRefId(id);
    if k + 3 <= |id| {
      assert !RefAt(id, k);
      assert s[k..k + 3] == id[k..k + 3];
    } else {
      assert s[|id|] == 'R';
    }
  }

  /** `undoStepRefId` recovers every id that does not itself contain "Ref". */
  lemma RefIdRoundTrip(id: string)
    requires !ContainsRef(id)
    ensures UndoStepRefId(StepRefId(id)) == id
  {
    var s := StepRefId(id);
    var r := UndoStepRefId(s);
    assert RefAt(s, |id|) by {
      assert s[|id|..|id| + 3] == "Ref";
    }
    forall k: nat | k < |id|
      ensures !RefAt(s, k)
    {
      NoEarlyRef(id, k);
    }
    assert |r| == |id|;
    assert r == s[..|id|] == id;
  }

  /** The round trip needs the restriction: an id containing "Ref" comes back cut short. */
  lemma RefIdRoundTripCutsShort()
    ensures UndoStepRefId(StepRefId("myRef")) == "my"
  {
    assert StepRefId("myRef") == "myRefRef";
    assert UndoStepRefId("RefRef") == "";
    assert "myRefRef"[1..] == "yRefRef";
    assert "yRefRef"[1..] == "RefRef";
  }

  function DigitChar(d: nat): char
    requires d < 10
  {
    "0123456789"[d]
  }

  /** Decimal digits of a natural number, most significant first. */
  function NaturalString(n: nat): (r: string)
    ensures 1 <= |r|
    ensures forall i :: 0 <= i < |r| ==> '0' <= r[i] <= '9'
    decreases n
  {
    if n < 10 then [DigitChar(n)] else NaturalString(n / 10) + [DigitChar(n % 10)]
  }

  /** `${n}` for an integer `n`. */
  function NumberString(n: int): string {
    if n < 0 then "-" + NaturalString(-n) else NaturalString(n)
  }

  predicate AllDigits(s: string) {
    forall i :: 0 <= i < |s| ==> '0' <= s[i] <= '9'
  }

  /** The number a string of decimal digits denotes, most significant first. */
  function DigitsValue(s: string): nat
    requires AllDigits(s)
    decreases |s|
  {
    if s == [] then 0 else DigitsValue(s[..|s| - 1]) * 10 + ((s[|s| - 1] as int) - ('0' as int))
  }

  lemma DigitCharValue(d: nat)
    requires d < 10
    ensures (DigitChar(d) as int) - ('0' as int) == d && (d != 0 ==> DigitChar(d) != '0')
  {
    if d == 0 {} else if d == 1 {} else if d == 2 {} else if d == 3 {} else if d == 4 {}
    else if d == 5 {} else if d == 6 {} else if d == 7 {} else if d == 8 {} else {}
  }

  /** The text of `n` is its decimal numeral: it denotes `n` and has no leading zero. */
  lemma {:induction false} NaturalStringValue(n: nat)
    ensures AllDigits(NaturalString(n)) && DigitsValue(NaturalString(n)) == n
    ensures n >= 10 ==> NaturalString(n)[0] != '0'
    decreases n
  {
    var r := NaturalString(n);
    if n < 10 {
      DigitCharValue(n);
      assert r[..0] == [];
    } else {
      NaturalStringValue(n / 10);
      DigitCharValue(n % 10);
      var front := NaturalString(n / 10);
      assert r == front + [DigitChar(n % 10)];
      assert r[..|r| - 1] == front;
      if n / 10 < 10 {
        DigitCharValue(n / 10);
      }
      assert r[0] == front[0];
    }
  }

  /** `${n}` is the numeral of `|n|`, after a minus sign exactly when `n` is negative. */
  lemma NumberStringValue(n: int)
    ensures var digits := if n < 0 then NumberString(n)[1..] else NumberString(n);
      (NumberString(n)[0] == '-' <==> n < 0) && AllDigits(digits) && DigitsValue(digits) == if n < 0 then -n else n
  {
    var digits := NaturalString(if n < 0 then -n else n);
    NaturalStringValue(if n < 0 then -n else n);
    if n < 0 {
      assert NumberString(n)[1..] == digits;
    } else {
      assert NumberString(n) == digits;
    }
  }
}
