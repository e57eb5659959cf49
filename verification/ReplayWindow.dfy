/** The circular receive window of a peer (adnl/adnl.go, `acceptPacketSeqnoLocked`). */
module ReplayWindow {
  import opened Bits

  const ZERO: Word := Zeros(64)

  /** The word 1. */
  const ONE: Word := seq(64, k => k == 0)

  const WINDOW_SIZE: int := 1024
  const WORDS: int := 16

  /** Bit `slot` of the bitmap. */
  predicate SlotSet(words: seq<Word>, slot: int)
    requires |words| == WORDS && 0 <= slot < WINDOW_SIZE
  {
    words[slot / 64][slot % 64]
  }

  /** The bitmap and the highest number stand for the set `seen` of numbers accepted since the last
      reset: inside the window a number's slot is set exactly when the number was accepted. */
  ghost predicate Represents(words: seq<Word>, highest: int, seen: set<int>) {
    && |words| == WORDS
    && highest >= 0
    && (forall s :: s in seen ==> 0 < s <= highest)
    && (forall s :: highest - WINDOW_SIZE < s <= highest ==> (SlotSet(words, s % WINDOW_SIZE) <==> s in seen))
  }

  /** The plain-set reading of the window: a positive number, not older than the window, not seen. */
  predicate Fresh(highest: int, seen: set<int>, seqno: int) {
    && seqno > 0
    && seqno > (if seqno > highest then seqno else highest) - WINDOW_SIZE
    && seqno !in seen
  }

  function Raise(highest: int, seqno: int): int {
    if seqno > highest then seqno else highest
  }

  /** `t` lies in the run of `len` slots that starts at `start` and wraps at the window size. */
  ghost predicate InRun(t: int, start: int, len: int) {
    (t - start) % WINDOW_SIZE < len
  }

  lemma SlotMoves(slot: int, start: int, done: int, bits: int)
    requires slot == (start + done) % WINDOW_SIZE
    ensures (slot + bits) % WINDOW_SIZE == (start + (done + bits)) % WINDOW_SIZE
  {
  }

  /** Of the numbers in the new window, the ones above the old highest number own the cleared slots. */
  lemma RunIsTheGap(s: int, highest: int, seqno: int)
    requires highest < seqno < highest + WINDOW_SIZE && seqno - WINDOW_SIZE < s <= seqno
    ensures InRun(s % WINDOW_SIZE, highest + 1, seqno - highest) <==> s > highest
  {
  }

  lemma RunExtends(t: int, start: int, done: int, bits: int)
    requires 0 <= t < WINDOW_SIZE && 0 <= done && 0 < bits && done + bits <= WINDOW_SIZE
    requires (start + done) % WINDOW_SIZE + bits <= WINDOW_SIZE
    ensures var slot := (start + done) % WINDOW_SIZE;
            InRun(t, start, done + bits) <==> InRun(t, start, done) || slot <= t < slot + bits
  {
  }

  /** `now` is `before` with the run of `len` slots from `start` cleared and nothing else changed. */
  ghost predicate Cleared(before: seq<Word>, now: seq<Word>, start: int, len: int)
    requires |before| == WORDS && |now| == WORDS
  {
    forall t :: 0 <= t < WINDOW_SIZE ==> (SlotSet(now, t) <==> SlotSet(before, t) && !InRun(t, start, len))
  }

  /** The mask built by the clearing loop covers exactly `bits` places from `low` up. */
  lemma MaskBits(low: nat, bits: nat, k: nat)
    requires low < 64 && 0 < bits <= 64 - low && k < 64
    ensures Shl(Shr(Not(ZERO), 64 - bits), low)[k] <==> low <= k < low + bits
  {
  }

  /** One turn of the clearing loop. */
  lemma ClearStep(before: seq<Word>, now: seq<Word>, start: int, done: int, bits: int)
    requires |before| == WORDS && |now| == WORDS && Cleared(before, now, start, done)
    requires 0 <= done && 0 < bits <= 64 - (start + done) % WINDOW_SIZE % 64 && done + bits <= WINDOW_SIZE
    ensures var slot := (start + done) % WINDOW_SIZE;
            var mask := Shl(Shr(Not(ZERO), 64 - bits), slot % 64);
            Cleared(before, now[slot / 64 := And(now[slot / 64], Not(mask))], start, done + bits)
  {
    var slot := (start + done) % WINDOW_SIZE;
    var mask := Shl(Shr(Not(ZERO), 64 - bits), slot % 64);
    var now' := now[slot / 64 := And(now[slot / 64], Not(mask))];
    forall t | 0 <= t < WINDOW_SIZE
      ensures SlotSet(now', t) <==> SlotSet(before, t) && !InRun(t, start, done + bits)
    {
      RunExtends(t, start, done, bits);
      assert slot <= t < slot + bits ==> t / 64 == slot / 64;
      if t / 64 == slot / 64 {
        MaskBits(slot % 64, bits, t % 64);
        assert SlotSet(now', t) <==> SlotSet(now, t) && !(slot <= t < slot + bits);
      }
    }
  }

  /** Moving the window up to `seqno` with the run in between cleared keeps the represented set. */
  lemma AdvanceKeeps(words: seq<Word>, words': seq<Word>, highest: int, seqno: int, seen: set<int>)
    requires Represents(words, highest, seen) && |words'| == WORDS && highest < seqno
    requires seqno - highest < WINDOW_SIZE
    requires Cleared(words, words', highest + 1, seqno - highest)
    ensures Represents(words', seqno, seen)
  {
    forall s | seqno - WINDOW_SIZE < s <= seqno
      ensures SlotSet(words', s % WINDOW_SIZE) <==> s in seen
    {
      RunIsTheGap(s, highest, seqno);
    }
  }

  lemma AllClear(words: seq<Word>, highest: int, seen: set<int>)
    requires |words| == WORDS && highest >= 0
    requires forall i :: 0 <= i < WORDS ==> words[i] == ZERO
    requires forall s :: s in seen ==> 0 < s <= highest - WINDOW_SIZE
    ensures Represents(words, highest, seen)
  {
  }

  /** Setting one slot of the window adds one number. */
  lemma MarkAdds(words: seq<Word>, highest: int, seqno: int, seen: set<int>)
    requires Represents(words, highest, seen) && 0 < seqno && highest - WINDOW_SIZE < seqno <= highest
    ensures var index := (seqno % WINDOW_SIZE) / 64;
            Represents(words[index := Or(words[index], Shl(ONE, seqno % 64))], highest, seen + {seqno})
  {
    var index, slot := (seqno % WINDOW_SIZE) / 64, seqno % WINDOW_SIZE;
    var words' := words[index := Or(words[index], Shl(ONE, seqno % 64))];
    forall s | highest - WINDOW_SIZE < s <= highest
      ensures SlotSet(words', s % WINDOW_SIZE) <==> s in seen + {seqno}
    {
      assert slot % 64 == seqno % 64;
      assert SlotSet(words', s % WINDOW_SIZE) <==> SlotSet(words, s % WINDOW_SIZE) || s % WINDOW_SIZE == slot;
      assert s % WINDOW_SIZE == slot ==> s == seqno;
    }
  }

  /** Masking with one shifted bit tests that bit. */
  lemma TestBit(w: Word, k: nat)
    requires k < 64
    ensures And(w, Shl(ONE, k)) != ZERO <==> w[k]
  {
    var m := And(w, Shl(ONE, k));
    if w[k] {
      assert m[k];
    } else {
      assert m == ZERO;
    }
  }

  /** The bit test of the accept step reads membership in the represented set. */
  lemma ReadTells(words: seq<Word>, highest: int, seqno: int, seen: set<int>)
    requires Represents(words, highest, seen) && 0 < seqno && highest - WINDOW_SIZE < seqno <= highest
    ensures And(words[(seqno % WINDOW_SIZE) / 64], Shl(ONE, seqno % 64)) != ZERO <==> seqno in seen
  {
    TestBit(words[(seqno % WINDOW_SIZE) / 64], seqno % 64);
    assert seqno % WINDOW_SIZE % 64 == seqno % 64;
    assert SlotSet(words, seqno % WINDOW_SIZE) <==> seqno in seen;
  }

  class Window {
    const words: array<Word>
    var confirmSeqno: int
    ghost var seen: set<int>

    ghost predicate Valid()
      reads this, words
    {
      words.Length == WORDS && Represents(words[..], confirmSeqno, seen)
    }

    constructor ()
      ensures Valid() && fresh(words)
      ensures confirmSeqno == 0 && seen == {}
    {
      words := new Word[WORDS](_ => ZERO);
      confirmSeqno := 0;
      seen := {};
    }

    /** `clear(a.recvSeqnoWindow[:])` together with the reset of the highest number. */
    method Reset()
      requires words.Length == WORDS
      modifies this, words
      ensures Valid() && confirmSeqno == 0 && seen == {}
    {
      ClearAll();
      confirmSeqno := 0;
      seen := {};
    }

    method ClearAll()
      requires words.Length == WORDS
      modifies words
      ensures forall i :: 0 <= i < WORDS ==> words[i] == ZERO
    {
      for i := 0 to WORDS
        invariant forall k :: 0 <= k < i ==> words[k] == ZERO
      {
        words[i] := ZERO;
      }
    }

    /** Clears the run of `delta` slots after `highest`, word by word. */
    method ClearRun(highest: int, delta: int)
      requires words.Length == WORDS && highest >= 0 && 0 < delta < WINDOW_SIZE
      modifies words
      ensures Cleared(old(words[..]), words[..], highest + 1, delta)
    {
      var slot := (highest + 1) % WINDOW_SIZE;
      var remaining := delta;
      while remaining > 0
        invariant 0 <= remaining <= delta
        invariant slot == (highest + 1 + (delta - remaining)) % WINDOW_SIZE
        invariant Cleared(old(words[..]), words[..], highest + 1, delta - remaining)
      {
        var bits := if 64 - slot % 64 < remaining then 64 - slot % 64 else remaining;
        var mask := Shl(Shr(Not(ZERO), 64 - bits), slot % 64);
        ClearStep(old(words[..]), words[..], highest + 1, delta - remaining, bits);
        ghost var next := words[..][slot / 64 := And(words[slot / 64], Not(mask))];
        words[slot / 64] := And(words[slot / 64], Not(mask));
        assert words[..] == next;
        SlotMoves(slot, highest + 1, delta - remaining, bits);
        remaining := remaining - bits;
        slot := (slot + bits) % WINDOW_SIZE;
      }
    }

    /** Accepts a sequence number exactly when the plain set says it is fresh. */
    method Accept(seqno: int) returns (ok: bool)
      requires Valid()
      modifies this, words
      ensures Valid()
      ensures ok <==> Fresh(old(confirmSeqno), old(seen), seqno)
      ensures seen == if ok then old(seen) + {seqno} else old(seen)
      ensures confirmSeqno == Raise(old(confirmSeqno), seqno)
    {
      if seqno <= 0 {
        return false;
      }
      var highest := confirmSeqno;
      ghost var before := words[..];
      if seqno > highest {
        var delta := seqno - highest;
        if delta >= WINDOW_SIZE {
          ClearAll();
          AllClear(words[..], seqno, seen);
        } else {
          ClearRun(highest, delta);
          AdvanceKeeps(before, words[..], highest, seqno, seen);
        }
        confirmSeqno := seqno;
        highest := seqno;
      }

      if highest - seqno >= WINDOW_SIZE {
        return false;
      }
      var index, bit := (seqno % WINDOW_SIZE) / 64, Shl(ONE, seqno % 64);
      ReadTells(words[..], confirmSeqno, seqno, seen);
      if And(words[index], bit) != ZERO {
        return false;
      }
      MarkAdds(words[..], confirmSeqno, seqno, seen);
      ghost var marked := words[..][index := Or(words[index], bit)];
      words[index] := Or(words[index], bit);
      assert words[..] == marked;
      seen := seen + {seqno};
      return true;
    }
  }
}
