/*
 * The repeat count of copy mode (src/pane.ts:857-867) as written. A key
 * starts or extends the count when it merely CONTAINS a digit, and the digit
 * is read with `parseInt(key)`, so a key such as "C-1" (control-1) or "F1"
 * turns the count into NaN. NaN is falsy, so later keys are handled once, but
 * every digit key then computes NaN again: the pane never counts again.
 *
 * CopyModel.Handle counts single-digit keys only; CountCorrected states that
 * rule on its own and CorrectedMatchesHandle ties it to Handle.
 */
module RepeatCount {
  import opened CopyModel

  /** A JavaScript number as the counter holds it. */
  datatype JsNumber = Num(n: int) | NaN

  /** JavaScript truthiness: NaN and 0 are falsy. */
  predicate Truthy(v: JsNumber) { v.Num? && v.n != 0 }

  /** `key.match(/[lo-9]/)`: some character of key is a digit from lo to 9. */
  predicate HasDigitFrom(key: string, lo: char)
  {
    exists i :: 0 <= i < |key| && lo <= key[i] <= '9'
  }

  /** The value of the run of digits key starts with. */
  function LeadingDigits(key: string, acc: nat): nat
    decreases |key|
  {
    if key != [] && '0' <= key[0] <= '9' then LeadingDigits(key[1..], 10 * acc + DigitValue(key[0]))
    else acc
  }

  /** `parseInt(key)` for a key without leading white space or sign: NaN unless the key
      starts with a digit. */
  function ParseInt(key: string): (r: JsNumber)
    ensures r == NaN <==> key == [] || !('0' <= key[0] <= '9')
  {
    if key == [] || !('0' <= key[0] <= '9') then NaN else Num(LeadingDigits(key, 0))
  }

  /** `10 * v + d`, NaN if either is NaN. */
  function TenTimesPlus(v: JsNumber, d: JsNumber): (r: JsNumber)
    ensures r == NaN <==> v == NaN || d == NaN
  {
    if v.NaN? || d.NaN? then NaN else Num(10 * v.n + d.n)
  }

  /** What the count does with one key: the new count, how many times the key is
      replayed, and whether it is instead handled once as usual. */
  datatype Counted<N> = Counted(repetition: N, replays: nat, once: bool)

  /** The count as written. */
  function CountAsWritten(rep: JsNumber, key: string): (r: Counted<JsNumber>)
    ensures rep == NaN && HasDigitFrom(key, '1') ==> r.repetition == NaN && !r.once && r.replays == 0
  {
    if Truthy(rep) || HasDigitFrom(key, '1') then
      if HasDigitFrom(key, '0') then Counted(TenTimesPlus(rep, ParseInt(key)), 0, false)
      else Counted(Num(0), if rep.n > 0 then rep.n else 0, false)
    else Counted(rep, 0, true)
  }

  /** Once the count is NaN, no sequence of keys ever replays a key again. */
  lemma {:induction false} NaNNeverCountsAgain(keys: seq<string>)
    ensures CountAllAsWritten(NaN, keys).replays == 0 && CountAllAsWritten(NaN, keys).repetition == NaN
  {
    if keys != [] {
      NaNNeverCountsAgain(keys[1..]);
    }
  }

  /** The count after a sequence of keys, and the replays the last key caused. */
  function CountAllAsWritten(rep: JsNumber, keys: seq<string>): Counted<JsNumber>
    decreases |keys|
  {
    if keys == [] then Counted(rep, 0, false)
    else if |keys| == 1 then CountAsWritten(rep, keys[0])
    else CountAllAsWritten(CountAsWritten(rep, keys[0]).repetition, keys[1..])
  }

  /** Control-1, then 5, then j: as written the count becomes NaN and `j` runs once. */
  lemma CountLostAsWritten()
    ensures var a := CountAsWritten(Num(0), "C-1");
      var b := CountAsWritten(a.repetition, "5");
      var c := CountAsWritten(b.repetition, "j");
      a.repetition == NaN && b.repetition == NaN && c.once && c.replays == 0
  {
    assert "C-1"[2] == '1';
    assert "5"[0] == '5';
    assert !HasDigitFrom("j", '0') by {
      assert forall i :: 0 <= i < |"j"| ==> "j"[i] == 'j';
    }
  }

  /** The count as intended: only a key that is one digit counts. */
  function CountCorrected(rep: nat, key: string): (r: Counted<nat>)
    ensures IsDigitKey(key) && (rep > 0 || key != "0") ==> r.repetition == 10 * rep + DigitValue(key[0]) && !r.once
    ensures !IsDigitKey(key) && rep > 0 ==> r.repetition == 0 && r.replays == rep && !r.once
    ensures !IsDigitKey(key) && rep == 0 ==> r.once && r.repetition == 0
  {
    if rep > 0 || (IsDigitKey(key) && key != "0") then
      if IsDigitKey(key) then Counted(10 * rep + DigitValue(key[0]), 0, false)
      else Counted(0, rep, false)
    else Counted(rep, 0, true)
  }

  /** The copy-mode model follows the corrected count. */
  lemma CorrectedMatchesHandle(s: CopyState, t: Term, key: string)
    requires CursorReady(s)
    ensures var c := CountCorrected(s.repetition, key);
      && (!c.once ==> Handle(s, t, key).repetition == c.repetition)
      && (!c.once && c.replays > 0 ==> Handle(s, t, key) == Replay(Start(s, t).s.(repetition := 0), t, key, c.replays))
      && (c.once ==> Handle(s, t, key) == Step(s, t, key))
  {
  }

  /** Control-1, then 5, then j: corrected, control-1 is handled as a key and `j` is
      replayed five times. */
  lemma CountKeptCorrected()
    ensures var a := CountCorrected(0, "C-1");
      var b := CountCorrected(a.repetition, "5");
      var c := CountCorrected(b.repetition, "j");
      a.once && b.repetition == 5 && c.replays == 5
  {
    assert "5"[0] == '5';
  }
}
