/** Which frames share a key: those of one source uid, or without uid of one row id, or without
    both of one device, time, sequence and content. */
module KeyLaws {
  import opened Wrappers
  import opened SyncModels

  predicate HasUid(f: SyncFrame)
  {
    Given(f.sourceFrameUid)
  }

  predicate HasRow(f: SyncFrame)
  {
    !HasUid(f) && f.archive.frameId.Some?
  }

  predicate Plain(f: SyncFrame)
  {
    !HasUid(f) && f.archive.frameId.None?
  }

  /** The digest that tells the content. */
  function Content(f: SyncFrame): string
  {
    if Given(f.contentDigest) then f.contentDigest.value else f.imageDigest
  }

  // ----- numbers as text -----

  predicate IsDigit(c: char)
  {
    '0' <= c <= '9'
  }

  predicate AllDigits(text: string)
  {
    |text| > 0 && forall i | 0 <= i < |text| :: IsDigit(text[i])
  }

  lemma {:induction false} DigitsAreDigits(n: nat)
    ensures AllDigits(DigitsText(n))
  {
    var last := [(n % 10) as char + '0'];
    if n >= 10 {
      DigitsAreDigits(n / 10);
      assert DigitsText(n) == DigitsText(n / 10) + last;
    }
  }

  function Value(text: string): int
    requires forall i | 0 <= i < |text| :: IsDigit(text[i])
  {
    if text == [] then 0 else 10 * Value(text[..|text| - 1]) + (text[|text| - 1] as int - '0' as int)
  }

  lemma {:induction false} DigitsHaveValue(n: nat)
    ensures AllDigits(DigitsText(n)) && Value(DigitsText(n)) == n
  {
    DigitsAreDigits(n);
    var last := [(n % 10) as char + '0'];
    if n >= 10 {
      DigitsHaveValue(n / 10);
      assert DigitsText(n)[..|DigitsText(n)| - 1] == DigitsText(n / 10);
    } else {
      assert DigitsText(n)[..0] == [];
    }
  }

  lemma {:induction false} NumbersDiffer(m: int, n: int)
    ensures IntText(m) == IntText(n) <==> m == n
  {
    if m < 0 { DigitsHaveValue(-m); } else { DigitsHaveValue(m); }
    if n < 0 { DigitsHaveValue(-n); } else { DigitsHaveValue(n); }
    hide DigitsText, Value;
    if IntText(m) == IntText(n) {
      assert (m < 0) == (IntText(m)[0] == '-') && (n < 0) == (IntText(n)[0] == '-');
      if m < 0 { assert IntText(m)[1..] == DigitsText(-m) && IntText(n)[1..] == DigitsText(-n); }
    }
  }

  // ----- parts between colons -----

  predicate NoColon(text: string)
  {
    forall i | 0 <= i < |text| :: text[i] != ':'
  }

  lemma NumbersHaveNoColon(n: int)
    ensures NoColon(IntText(n)) && IntText(n) != "-"
  {
    if n < 0 {
      DigitsAreDigits(-n);
      assert |IntText(n)| > 1;
    } else {
      DigitsAreDigits(n);
      assert IsDigit(IntText(n)[0]);
    }
  }

  /** A text is cut at its first colon in one way. */
  lemma CutAtColon(a: string, b: string, c: string, d: string)
    requires NoColon(a) && NoColon(c)
    ensures a + ":" + b == c + ":" + d <==> a == c && b == d
  {
    var x, y := a + ":" + b, c + ":" + d;
    assert x[|a|] == ':' && y[|c|] == ':';
    assert |a| < |c| ==> y[|a|] == c[|a|];
    assert |c| < |a| ==> x[|c|] == a[|c|];
    if x == y {
      assert a == x[..|a|] && c == y[..|c|] && b == x[|a| + 1..] && d == y[|c| + 1..];
    }
  }

  function SequenceText(f: SyncFrame): string
  {
    if f.sequence.Some? then IntText(f.sequence.value) else "-"
  }

  lemma SequencesDiffer(f: SyncFrame, g: SyncFrame)
    ensures NoColon(SequenceText(f)) && (SequenceText(f) == SequenceText(g) <==> f.sequence == g.sequence)
  {
    if f.sequence.Some? { NumbersHaveNoColon(f.sequence.value); }
    if g.sequence.Some? { NumbersHaveNoColon(g.sequence.value); }
    if f.sequence.Some? && g.sequence.Some? { NumbersDiffer(f.sequence.value, g.sequence.value); }
    hide IntText;
  }

  lemma PlainKey(f: SyncFrame)
    requires Plain(f)
    ensures BuildBufferKey(f)
            == "legacy:" + (f.deviceId + ":" + (IntText(f.timestampMs) + ":" + (SequenceText(f) + ":" + Content(f))))
  {
    hide IntText;
    var a, b, c := f.deviceId, IntText(f.timestampMs), SequenceText(f);
    assert "legacy:" + a + ":" + b + ":" + c + ":" + Content(f)
           == "legacy:" + (a + ":" + (b + ":" + (c + ":" + Content(f))));
  }

  /** Keys of different kinds differ; of one kind they tell what they are made of. */
  lemma {:induction false} KeysTell(f: SyncFrame, g: SyncFrame)
    ensures BuildBufferKey(f) == BuildBufferKey(g) ==>
              HasUid(f) == HasUid(g) && HasRow(f) == HasRow(g) && Plain(f) == Plain(g)
    ensures HasUid(f) && HasUid(g) ==>
              (BuildBufferKey(f) == BuildBufferKey(g) <==> f.sourceFrameUid == g.sourceFrameUid)
    ensures HasRow(f) && HasRow(g) ==>
              (BuildBufferKey(f) == BuildBufferKey(g) <==> f.archive.frameId == g.archive.frameId)
    ensures Plain(f) && Plain(g) && NoColon(f.deviceId) && NoColon(g.deviceId) ==>
              (BuildBufferKey(f) == BuildBufferKey(g)
               <==> && f.deviceId == g.deviceId && f.timestampMs == g.timestampMs && f.sequence == g.sequence
                    && Content(f) == Content(g))
  {
    KindsTell(f);
    KindsTell(g);
    if HasUid(f) && HasUid(g) { SameUid(f, g); }
    if HasRow(f) && HasRow(g) { SameRow(f, g); }
    if Plain(f) && Plain(g) && NoColon(f.deviceId) && NoColon(g.deviceId) { SamePlain(f, g); }
    hide BuildBufferKey;
  }

  lemma KindsTell(f: SyncFrame)
    ensures |BuildBufferKey(f)| > 0
    ensures HasUid(f) <==> BuildBufferKey(f)[0] == 's'
    ensures HasRow(f) <==> BuildBufferKey(f)[0] == 'd'
    ensures Plain(f) <==> BuildBufferKey(f)[0] == 'l'
  {
    hide IntText;
  }

  lemma SameUid(f: SyncFrame, g: SyncFrame)
    requires HasUid(f) && HasUid(g)
    ensures BuildBufferKey(f) == BuildBufferKey(g) <==> f.sourceFrameUid == g.sourceFrameUid
  {
    var x, y := BuildBufferKey(f), BuildBufferKey(g);
    assert x[7..] == f.sourceFrameUid.value && y[7..] == g.sourceFrameUid.value;
  }

  lemma SameRow(f: SyncFrame, g: SyncFrame)
    requires HasRow(f) && HasRow(g)
    ensures BuildBufferKey(f) == BuildBufferKey(g) <==> f.archive.frameId == g.archive.frameId
  {
    var x, y := BuildBufferKey(f), BuildBufferKey(g);
    NumbersDiffer(f.archive.frameId.value, g.archive.frameId.value);
    hide IntText;
    assert x[3..] == IntText(f.archive.frameId.value) && y[3..] == IntText(g.archive.frameId.value);
  }

  lemma SamePlain(f: SyncFrame, g: SyncFrame)
    requires Plain(f) && Plain(g) && NoColon(f.deviceId) && NoColon(g.deviceId)
    ensures BuildBufferKey(f) == BuildBufferKey(g)
            <==> && f.deviceId == g.deviceId && f.timestampMs == g.timestampMs && f.sequence == g.sequence
                 && Content(f) == Content(g)
  {
    PlainKey(f);
    PlainKey(g);
    NumbersDiffer(f.timestampMs, g.timestampMs);
    NumbersHaveNoColon(f.timestampMs);
    NumbersHaveNoColon(g.timestampMs);
    SequencesDiffer(f, g);
    SequencesDiffer(g, f);
    hide BuildBufferKey, IntText, NoColon, SequenceText, Content;
    var c, d := SequenceText(f) + ":" + Content(f), SequenceText(g) + ":" + Content(g);
    CutAtColon(SequenceText(f), Content(f), SequenceText(g), Content(g));
    var a, b := IntText(f.timestampMs) + ":" + c, IntText(g.timestampMs) + ":" + d;
    CutAtColon(IntText(f.timestampMs), c, IntText(g.timestampMs), d);
    CutAtColon(f.deviceId, a, g.deviceId, b);
    SamePrefix("legacy:", f.deviceId + ":" + a, g.deviceId + ":" + b);
  }

  lemma SamePrefix(p: string, a: string, b: string)
    ensures p + a == p + b <==> a == b
  {
    assert (p + a)[|p|..] == a && (p + b)[|p|..] == b;
  }

  function PlainFrame(deviceId: string, timestampMs: int, sequence: int, digest: string): SyncFrame
  {
    SyncFrame(
      "", deviceId, timestampMs, Some(sequence), SourceIdentity(None, None), None, Some(digest), "image", LEGACY, None,
      Scope(None, None, None, None, None, None, None, None, None), Archive(None, None, ARCHIVE_PENDING, None))
  }

  /** With a colon in a device id, frames of different devices may share a key. */
  lemma {:induction false} ColonsMislead()
    ensures var f, g := PlainFrame("a", 1, 2, "3:x"), PlainFrame("a:1", 2, 3, "x");
            Plain(f) && Plain(g) && f.deviceId != g.deviceId && BuildBufferKey(f) == BuildBufferKey(g)
  {
    var f, g := PlainFrame("a", 1, 2, "3:x"), PlainFrame("a:1", 2, 3, "x");
    assert IntText(1) == "1" && IntText(2) == "2" && IntText(3) == "3";
    hide BuildBufferKey, IntText;
    PlainKey(f);
    PlainKey(g);
    assert "a" + ":" + ("1" + ":" + ("2" + ":" + "3:x")) == "a:1" + ":" + ("2" + ":" + ("3" + ":" + "x"));
  }
}
