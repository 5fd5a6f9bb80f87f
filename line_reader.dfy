/**
 * The escape-cancellable line reader. Both readers of the client consume key
 * events one at a time: Escape ends the read as cancelled, Enter ends it with
 * the buffer, and every other event edits the buffer.
 */
module LineReader {
  import opened Terminal

  /** `ReadLineOrEscape` (blocking reads) or `GetInputOrEscape` (polled reads). */
  datatype Reader = Blocking | Polling

  /**
   * How a read ends. `next` is the position of the first key event after
   * the terminating one. `Waiting`: the script ran out first, where the
   * console would go on waiting for a key.
   */
  datatype Read = Cancelled(next: nat) | Entered(line: string, next: nat) | Waiting

  /** The events that end a read. */
  predicate IsStop(k: KeyInfo) {
    k.key == Escape || k.key == Enter
  }

  predicate NoStop(ks: seq<KeyInfo>) {
    forall m :: 0 <= m < |ks| ==> !IsStop(ks[m])
  }

  /** What the console reports for Backspace: its character is a control character. */
  predicate WellFormed(k: KeyInfo) {
    k.key == Backspace ==> IsControl(k.keyChar)
  }

  /**
   * The buffer after one event that does not end the read. The blocking
   * reader tests Backspace first and ignores it on an empty buffer; the
   * polling reader tests Backspace together with a non-empty buffer, so a
   * Backspace on an empty buffer falls through to the control-character test.
   */
  function Edit(reader: Reader, buf: string, k: KeyInfo): string {
    match reader
    case Blocking =>
      if k.key == Backspace then
        if |buf| > 0 then buf[..|buf| - 1] else buf
      else if !IsControl(k.keyChar) then buf + [k.keyChar]
      else buf
    case Polling =>
      if k.key == Backspace && |buf| > 0 then buf[..|buf| - 1]
      else if !IsControl(k.keyChar) then buf + [k.keyChar]
      else buf
  }

  /** The buffer after a run of editing events, starting from the empty buffer. */
  function Typed(reader: Reader, ks: seq<KeyInfo>): string
    decreases |ks|
  {
    if ks == [] then "" else Edit(reader, Typed(reader, ks[..|ks| - 1]), ks[|ks| - 1])
  }

  /** The characters that a run of events would append if nothing were erased. */
  function Printables(ks: seq<KeyInfo>): string
    decreases |ks|
  {
    if ks == [] then ""
    else
      var k := ks[|ks| - 1];
      Printables(ks[..|ks| - 1]) + (if k.key != Backspace && !IsControl(k.keyChar) then [k.keyChar] else "")
  }

  /**
   * The read from event `i` on, with buffer `buf`: the loop of both readers,
   * one event per step.
   */
  function ReadFrom(reader: Reader, keys: seq<KeyInfo>, i: nat, buf: string): (r: Read)
    requires i <= |keys|
    ensures !r.Waiting? ==> i < r.next <= |keys| && IsStop(keys[r.next - 1])
    ensures r.Entered? && Printable(buf) ==> Printable(r.line)
    decreases |keys| - i
  {
    if i == |keys| then Waiting
    else if keys[i].key == Escape then Cancelled(i + 1)
    else if keys[i].key == Enter then Entered(buf, i + 1)
    else ReadFrom(reader, keys, i + 1, Edit(reader, buf, keys[i]))
  }

  /** `ReadLineOrEscape`, reading the key events of `keys` in order from position `at`. */
  method ReadLineOrEscape(keys: seq<KeyInfo>, at: nat) returns (r: Read)
    requires at <= |keys|
    ensures r == ReadFrom(Blocking, keys, at, "")
  {
    var input := "";
    var i := at;
    while i < |keys|
      invariant at <= i <= |keys|
      invariant ReadFrom(Blocking, keys, i, input) == ReadFrom(Blocking, keys, at, "")
      decreases |keys| - i
    {
      var keyInfo := keys[i];
      if keyInfo.key == Escape {
        return Cancelled(i + 1);
      }
      if keyInfo.key == Enter {
        return Entered(input, i + 1);
      }
      if keyInfo.key == Backspace {
        if |input| > 0 {
          input := input[..|input| - 1];
        }
      } else if !IsControl(keyInfo.keyChar) {
        input := input + [keyInfo.keyChar];
      }
      i := i + 1;
    }
    return Waiting;
  }

  /**
   * `GetInputOrEscape`, reading the key events of `keys` in order from
   * position `at` (the polling for an available key is not modelled).
   */
  method GetInputOrEscape(keys: seq<KeyInfo>, at: nat) returns (r: Read)
    requires at <= |keys|
    ensures r == ReadFrom(Polling, keys, at, "")
  {
    var input := "";
    var i := at;
    while true
      invariant at <= i <= |keys|
      invariant ReadFrom(Polling, keys, i, input) == ReadFrom(Polling, keys, at, "")
      decreases |keys| - i
    {
      if i == |keys| {
        return Waiting;
      }
      var key := keys[i];
      if key.key == Escape {
        return Cancelled(i + 1);
      }
      if key.key == Enter {
        return Entered(input, i + 1);
      }
      if key.key == Backspace && |input| > 0 {
        input := input[..|input| - 1];
      } else if !IsControl(key.keyChar) {
        input := input + [key.keyChar];
      }
      i := i + 1;
    }
  }

  /** Typing one more event extends the fold by one edit. */
  lemma TypedSnoc(reader: Reader, keys: seq<KeyInfo>, at: nat, i: nat)
    requires at <= i < |keys|
    ensures Typed(reader, keys[at..i + 1]) == Edit(reader, Typed(reader, keys[at..i]), keys[i])
  {
    assert keys[at..i + 1][..i - at] == keys[at..i];
  }

  lemma {:induction false} ReadFromStop(reader: Reader, keys: seq<KeyInfo>, at: nat, i: nat, j: nat)
    requires at <= i <= j < |keys|
    requires IsStop(keys[j]) && NoStop(keys[at..j])
    ensures ReadFrom(reader, keys, i, Typed(reader, keys[at..i])) ==
            if keys[j].key == Escape then Cancelled(j + 1) else Entered(Typed(reader, keys[at..j]), j + 1)
    decreases j - i
  {
    if i < j {
      assert keys[at..j][i - at] == keys[i];
      TypedSnoc(reader, keys, at, i);
      ReadFromStop(reader, keys, at, i + 1, j);
    }
  }

  /**
   * A read ends at the first Escape or Enter: cancelled at an Escape, and at
   * an Enter with exactly what the events before it typed.
   */
  lemma ReadEndsAtFirstStop(reader: Reader, keys: seq<KeyInfo>, j: nat)
    requires j < |keys| && IsStop(keys[j]) && NoStop(keys[..j])
    ensures ReadFrom(reader, keys, 0, "") ==
            if keys[j].key == Escape then Cancelled(j + 1) else Entered(Typed(reader, keys[..j]), j + 1)
  {
    assert keys[0..0] == [];
    assert keys[0..j] == keys[..j];
    ReadFromStop(reader, keys, 0, 0, j);
  }

  /** Escape cancels the read, whatever was typed before it. */
  lemma EscapeCancels(reader: Reader, typed: seq<KeyInfo>, esc: KeyInfo, rest: seq<KeyInfo>)
    requires NoStop(typed) && esc.key == Escape
    ensures ReadFrom(reader, typed + [esc] + rest, 0, "") == Cancelled(|typed| + 1)
  {
    var keys := typed + [esc] + rest;
    assert keys[..|typed|] == typed;
    ReadEndsAtFirstStop(reader, keys, |typed|);
  }

  /** Enter ends the read with the buffer the events before it typed, the empty one included. */
  lemma EnterReturnsTyped(reader: Reader, typed: seq<KeyInfo>, enter: KeyInfo, rest: seq<KeyInfo>)
    requires NoStop(typed) && enter.key == Enter
    ensures ReadFrom(reader, typed + [enter] + rest, 0, "") == Entered(Typed(reader, typed), |typed| + 1)
  {
    var keys := typed + [enter] + rest;
    assert keys[..|typed|] == typed;
    ReadEndsAtFirstStop(reader, keys, |typed|);
  }

  lemma {:induction false} ReadFromWaits(reader: Reader, keys: seq<KeyInfo>, i: nat, buf: string)
    requires i <= |keys|
    requires forall m :: i <= m < |keys| ==> !IsStop(keys[m])
    ensures ReadFrom(reader, keys, i, buf) == Waiting
    decreases |keys| - i
  {
    if i < |keys| {
      ReadFromWaits(reader, keys, i + 1, Edit(reader, buf, keys[i]));
    }
  }

  /** Without an Escape or an Enter the read does not end. */
  lemma ReadLineWaits(reader: Reader, keys: seq<KeyInfo>)
    requires NoStop(keys)
    ensures ReadFrom(reader, keys, 0, "") == Waiting
  {
    ReadFromWaits(reader, keys, 0, "");
  }

  /** The buffer never holds a control character. */
  lemma {:induction false} TypedIsPrintable(reader: Reader, ks: seq<KeyInfo>)
    ensures Printable(Typed(reader, ks))
    decreases |ks|
  {
    if ks != [] {
      var prefix := ks[..|ks| - 1];
      TypedIsPrintable(reader, prefix);
      var before := Typed(reader, prefix);
      var after := Typed(reader, ks);
      if |after| < |before| {
        assert forall m :: 0 <= m < |after| ==> after[m] == before[m];
      }
    }
  }

  /** The blocking reader's buffer is never longer than the printable events typed. */
  lemma {:induction false} TypedLength(ks: seq<KeyInfo>)
    ensures |Typed(Blocking, ks)| <= |Printables(ks)|
    decreases |ks|
  {
    if ks != [] {
      TypedLength(ks[..|ks| - 1]);
    }
  }

  /** Without Backspace the blocking reader's buffer is exactly the printable characters typed. */
  lemma {:induction false} TypedWithoutBackspace(ks: seq<KeyInfo>)
    requires forall m :: 0 <= m < |ks| ==> ks[m].key != Backspace
    ensures Typed(Blocking, ks) == Printables(ks)
    decreases |ks|
  {
    if ks != [] {
      TypedWithoutBackspace(ks[..|ks| - 1]);
    }
  }

  lemma {:induction false} ReadersAgreeFrom(keys: seq<KeyInfo>, i: nat, buf: string)
    requires i <= |keys|
    requires forall m :: i <= m < |keys| ==> WellFormed(keys[m])
    ensures ReadFrom(Blocking, keys, i, buf) == ReadFrom(Polling, keys, i, buf)
    decreases |keys| - i
  {
    if i < |keys| && !IsStop(keys[i]) {
      assert Edit(Blocking, buf, keys[i]) == Edit(Polling, buf, keys[i]);
      ReadersAgreeFrom(keys, i + 1, Edit(Blocking, buf, keys[i]));
    }
  }

  /** On the events a console reports, the two readers give the same result. */
  lemma ReadersAgree(keys: seq<KeyInfo>)
    requires forall m :: 0 <= m < |keys| ==> WellFormed(keys[m])
    ensures ReadFrom(Blocking, keys, 0, "") == ReadFrom(Polling, keys, 0, "")
  {
    ReadersAgreeFrom(keys, 0, "");
  }

  /**
   * The agreement needs Backspace's character to be a control character: a
   * Backspace typing 'x' on an empty buffer is ignored by one reader and
   * appended by the other.
   */
  lemma ReadersDifferOnPrintableBackspace()
    ensures var keys := [KeyInfo(Backspace, 'x'), KeyInfo(Enter, '\r')];
            ReadFrom(Blocking, keys, 0, "") == Entered("", 2)
            && ReadFrom(Polling, keys, 0, "") == Entered("x", 2)
  {
    var keys := [KeyInfo(Backspace, 'x'), KeyInfo(Enter, '\r')];
    assert ReadFrom(Polling, keys, 1, "x") == Entered("x", 2);
  }
}
