/**
 * The bar tags of the top-level Gantt canvas,
 * `schedule_bar_<name>_<start>_<end>_<index>`: Python's `str` of an
 * integer and `int` of a decimal string, `str.split('_')` and its inverse
 * join, the encoder, the decoder as written, and a decoder that also reads
 * back member names containing `_`.
 */
module BarTag {
  import opened Wrappers

  /** The separator of tag fields. */
  const Sep: char := '_'

  /** What a bar tag carries: the member, the schedule `(start, end)` and its list index. */
  datatype Target = Target(member: string, start: int, end: int, index: int)

  // ---------------------------------------------------------------------
  // Decimal integers
  // ---------------------------------------------------------------------

  /** An ASCII decimal digit. */
  predicate IsDigit(c: char)
  {
    '0' <= c <= '9'
  }

  /** The digit character of `d`. */
  function DigitChar(d: nat): (c: char)
    requires d < 10
    ensures IsDigit(c)
  {
    ['0', '1', '2', '3', '4', '5', '6', '7', '8', '9'][d]
  }

  /** The value of a digit character. */
  function DigitValue(c: char): (d: nat)
    requires IsDigit(c)
    ensures d < 10
  {
    (c as int) - ('0' as int)
  }

  /** `DigitValue` reads back `DigitChar`. */
  lemma DigitRoundTrip(d: nat)
    requires d < 10
    ensures DigitValue(DigitChar(d)) == d
  {
  }

  /** Decimal digits of a natural number, most significant first, no leading zero. */
  function NatToStr(n: nat): (s: string)
    ensures |s| > 0
    ensures forall i :: 0 <= i < |s| ==> IsDigit(s[i])
    decreases n
  {
    if n < 10 then [DigitChar(n)] else NatToStr(n / 10) + [DigitChar(n % 10)]
  }

  /** `str(n)`: a minus sign for negatives, then the digits. */
  function IntToStr(n: int): (s: string)
    ensures Sep !in s
  {
    var digits := if n < 0 then NatToStr(-n) else NatToStr(n);
    var s := if n < 0 then ['-'] + digits else digits;
    assert forall i :: 0 <= i < |s| ==> s[i] == '-' || IsDigit(s[i]);
    s
  }

  /** The value of a string of digits (the empty string counts as 0). */
  function DigitsValue(s: string): (n: nat)
    requires forall i :: 0 <= i < |s| ==> IsDigit(s[i])
  {
    if |s| == 0 then 0 else DigitsValue(s[..|s| - 1]) * 10 + DigitValue(s[|s| - 1])
  }

  /** Every character of `s` is a digit, and there is at least one. */
  predicate AllDigits(s: string)
  {
    |s| > 0 && forall i :: 0 <= i < |s| ==> IsDigit(s[i])
  }

  /** `int(s)` without a sign: at least one digit and nothing else. */
  function ParseUnsigned(s: string): (r: Option<nat>)
    ensures r.Some? <==> AllDigits(s)
    ensures r.Some? ==> r.value == DigitsValue(s)
  {
    if AllDigits(s) then Some(DigitsValue(s)) else None
  }

  /**
   * `int(s)` on an ASCII string: an optional sign and at least one decimal
   * digit, leading zeros allowed; anything else raises `ValueError`, here
   * `None`.
   */
  function ParseInt(s: string): (r: Option<int>)
    ensures r.Some? <==> AllDigits(s) || (|s| > 1 && (s[0] == '-' || s[0] == '+') && AllDigits(s[1..]))
    ensures AllDigits(s) ==> r == Some(DigitsValue(s))
    ensures |s| > 1 && s[0] == '+' && AllDigits(s[1..]) ==> r == Some(DigitsValue(s[1..]) as int)
    ensures |s| > 1 && s[0] == '-' && AllDigits(s[1..]) ==> r == Some(-(DigitsValue(s[1..]) as int))
  {
    if |s| > 0 && (s[0] == '-' || s[0] == '+') then
      match ParseUnsigned(s[1..])
      case None => None
      case Some(v) => Some(if s[0] == '-' then -(v as int) else v as int)
    else
      match ParseUnsigned(s)
      case None => None
      case Some(v) => Some(v)
  }

  /** Reading the digits of `n` gives back `n`. */
  lemma {:induction false} NatRoundTrip(n: nat)
    ensures DigitsValue(NatToStr(n)) == n
    decreases n
  {
    var s := NatToStr(n);
    if n < 10 {
      DigitRoundTrip(n);
    } else {
      NatRoundTrip(n / 10);
      assert s[..|s| - 1] == NatToStr(n / 10);
      DigitRoundTrip(n % 10);
    }
  }

  /** `int(str(n)) == n` for every integer. */
  lemma IntRoundTrip(n: int)
    ensures ParseInt(IntToStr(n)) == Some(n)
  {
    if n < 0 {
      NegativeRoundTrip(n);
    } else {
      NatRoundTrip(n);
    }
  }

  /** A negative number reads back through the minus-sign branch of `ParseInt`. */
  lemma NegativeRoundTrip(n: int)
    requires n < 0
    ensures ParseInt(IntToStr(n)) == Some(n)
  {
    var digits := NatToStr(-n);
    NatRoundTrip(-n);
    assert ParseUnsigned(digits) == Some(-n);
    var s := IntToStr(n);
    assert s == ['-'] + digits;
    assert s[0] == '-' && s[1..] == digits;
  }

  // ---------------------------------------------------------------------
  // Splitting and joining on '_'
  // ---------------------------------------------------------------------

  /** `s.split('_')`: the maximal runs between separators, empty runs included. */
  function Split(s: string): (parts: seq<string>)
    ensures |parts| > 0
    ensures forall i :: 0 <= i < |parts| ==> Sep !in parts[i]
    decreases |s|
  {
    if |s| == 0 then [""]
    else
      var rest := Split(s[1..]);
      if s[0] == Sep then [""] + rest
      else [[s[0]] + rest[0]] + rest[1..]
  }

  /** `'_'.join(parts)`. */
  function Join(parts: seq<string>): (s: string)
    requires |parts| > 0
    decreases |parts|
  {
    if |parts| == 1 then parts[0] else parts[0] + [Sep] + Join(parts[1..])
  }

  /** Joining the pieces of a split gives back the string. */
  lemma {:induction false} JoinSplit(s: string)
    ensures Join(Split(s)) == s
    decreases |s|
  {
    if |s| > 0 {
      JoinSplit(s[1..]);
      var rest := Split(s[1..]);
      if s[0] == Sep {
        assert Split(s)[1..] == rest;
      } else {
        var parts := Split(s);
        assert parts[1..] == rest[1..];
        if |rest| > 1 {
          assert rest[1..] == rest[1..];
          assert Join(rest) == rest[0] + [Sep] + Join(rest[1..]);
        }
      }
    }
  }

  /** A string without separators splits into itself alone. */
  lemma {:induction false} SplitPlain(s: string)
    requires Sep !in s
    ensures Split(s) == [s]
    decreases |s|
  {
    if |s| > 0 {
      assert s[0] in s;
      assert forall c :: c in s[1..] ==> c in s;
      SplitPlain(s[1..]);
      assert s == [s[0]] + s[1..];
    }
  }

  /** Splitting `a + "_" + b` splits `a` and `b` separately. */
  lemma {:induction false} SplitJoined(a: string, b: string)
    ensures Split(a + [Sep] + b) == Split(a) + Split(b)
    decreases |a|
  {
    if |a| == 0 {
      assert a + [Sep] + b == [Sep] + b;
      assert ([Sep] + b)[1..] == b;
    } else {
      assert (a + [Sep] + b)[1..] == a[1..] + [Sep] + b;
      SplitJoined(a[1..], b);
    }
  }

  /** Splitting a join of separator-free pieces gives back the pieces. */
  lemma {:induction false} SplitJoin(parts: seq<string>)
    requires |parts| > 0
    requires forall i :: 0 <= i < |parts| ==> Sep !in parts[i]
    ensures Split(Join(parts)) == parts
    decreases |parts|
  {
    SplitPlain(parts[0]);
    if |parts| > 1 {
      SplitJoin(parts[1..]);
      SplitJoined(parts[0], Join(parts[1..]));
      assert parts == [parts[0]] + parts[1..];
    }
  }

  // ---------------------------------------------------------------------
  // Encoding and decoding
  // ---------------------------------------------------------------------

  /** The fixed leading fields, `schedule` and `bar`. */
  const Schedule: string := "schedule"
  const BarWord: string := "bar"

  /** `schedule_bar_`, the prefix every bar tag starts with. */
  const BarPrefix: string := Schedule + [Sep] + BarWord + [Sep]

  /** `f"schedule_bar_{name}_{start}_{end}_{j}"`: the fixed prefix, then the member and the numbers. */
  function Encode(t: Target): (tag: string)
    ensures |BarPrefix| < |tag| && tag[..|BarPrefix|] == BarPrefix
  {
    var rest := [t.member, IntToStr(t.start), IntToStr(t.end), IntToStr(t.index)];
    var six := [Schedule, BarWord] + rest;
    assert six == [Schedule, BarWord, t.member, IntToStr(t.start), IntToStr(t.end), IntToStr(t.index)];
    assert six[1..] == [BarWord] + rest;
    assert six[1..][1..] == rest;
    assert Join(six) == Schedule + [Sep] + (BarWord + [Sep] + Join(rest));
    assert Join(six) == BarPrefix + Join(rest);
    Join([Schedule, BarWord, t.member, IntToStr(t.start), IntToStr(t.end), IntToStr(t.index)])
  }

  const TextWord: string := "text"

  /** `schedule_text_`, the prefix every text tag starts with. */
  const TextPrefix: string := Schedule + [Sep] + TextWord + [Sep]

  /**
   * `f"schedule_text_{name}_{start}_{end}_{j}"`: the tag the chart gives
   * a bar's label, and also the bar itself, next to its bar tag.
   */
  function TextTag(t: Target): (tag: string)
    ensures |TextPrefix| < |tag| && tag[..|TextPrefix|] == TextPrefix
    ensures tag[..|BarPrefix|] != BarPrefix
  {
    var rest := [t.member, IntToStr(t.start), IntToStr(t.end), IntToStr(t.index)];
    var six := [Schedule, TextWord] + rest;
    assert six == [Schedule, TextWord, t.member, IntToStr(t.start), IntToStr(t.end), IntToStr(t.index)];
    assert six[1..] == [TextWord] + rest;
    assert six[1..][1..] == rest;
    assert Join(six) == Schedule + [Sep] + (TextWord + [Sep] + Join(rest));
    assert Join(six) == TextPrefix + Join(rest);
    assert Join(six)[9] == 't' != BarPrefix[9];
    Join([Schedule, TextWord, t.member, IntToStr(t.start), IntToStr(t.end), IntToStr(t.index)])
  }

  /** A separator-free first piece splits off on its own. */
  lemma SplitCons(a: string, rest: seq<string>)
    requires Sep !in a
    requires |rest| > 0
    ensures Split(Join([a] + rest)) == [a] + Split(Join(rest))
  {
    assert ([a] + rest)[1..] == rest;
    assert Join([a] + rest) == a + [Sep] + Join(rest);
    SplitJoined(a, Join(rest));
    SplitPlain(a);
  }

  /**
   * Joining separator-free pieces around one arbitrary piece and splitting
   * again gives the pieces back, with the arbitrary one split in its turn.
   */
  lemma {:induction false} SplitJoinAround(pre: seq<string>, mid: string, post: seq<string>)
    requires |post| > 0
    requires forall i :: 0 <= i < |pre| ==> Sep !in pre[i]
    requires forall i :: 0 <= i < |post| ==> Sep !in post[i]
    ensures Split(Join(pre + [mid] + post)) == pre + Split(mid) + post
    decreases |pre|
  {
    if |pre| == 0 {
      assert pre + [mid] + post == [mid] + post;
      SplitJoinAroundBase(mid, post);
    } else {
      SplitJoinAround(pre[1..], mid, post);
      SplitJoinAroundStep(pre[0], pre[1..], mid, post);
      assert [pre[0]] + pre[1..] == pre;
    }
  }

  /** One step of `SplitJoinAround`: a separator-free piece goes in front. */
  lemma SplitJoinAroundStep(first: string, tail: seq<string>, mid: string, post: seq<string>)
    requires |post| > 0
    requires Sep !in first
    requires Split(Join(tail + [mid] + post)) == tail + Split(mid) + post
    ensures Split(Join([first] + tail + [mid] + post)) == [first] + tail + Split(mid) + post
  {
    var rest := tail + [mid] + post;
    SeqAssoc4([first], tail, [mid], post);
    SplitCons(first, rest);
    SeqAssoc4([first], tail, Split(mid), post);
  }

  /** Regrouping a four-way concatenation with the first part split off. */
  lemma SeqAssoc4<T>(a: seq<T>, b: seq<T>, c: seq<T>, d: seq<T>)
    ensures a + b + c + d == a + (b + c + d)
  {
  }

  /** The case of `SplitJoinAround` with nothing before the arbitrary piece. */
  lemma SplitJoinAroundBase(mid: string, post: seq<string>)
    requires |post| > 0
    requires forall i :: 0 <= i < |post| ==> Sep !in post[i]
    ensures Split(Join([mid] + post)) == Split(mid) + post
  {
    assert ([mid] + post)[1..] == post;
    assert Join([mid] + post) == mid + [Sep] + Join(post);
    SplitJoined(mid, Join(post));
    SplitJoin(post);
  }

  /** The pieces of an encoded tag: the two fixed words, the name's pieces, three numbers. */
  lemma EncodeSplit(t: Target)
    ensures Split(Encode(t))
              == [Schedule, BarWord] + Split(t.member) + [IntToStr(t.start), IntToStr(t.end), IntToStr(t.index)]
  {
    var pre := [Schedule, BarWord];
    var nums := [IntToStr(t.start), IntToStr(t.end), IntToStr(t.index)];
    assert Sep !in Schedule;
    assert Sep !in BarWord;
    assert pre + [t.member] + nums
        == [Schedule, BarWord, t.member, IntToStr(t.start), IntToStr(t.end), IntToStr(t.index)];
    SplitJoinAround(pre, t.member, nums);
  }

  /**
   * The decoding of `start_drag` and `show_context_menu`: split on every
   * `_`, name from `parts[2]`, numbers from `parts[3]`, `parts[4]`,
   * `parts[5]`. Fewer than six parts (`IndexError`) or a field that is not
   * an integer (`ValueError`) gives `None`; parts past the sixth are ignored.
   */
  function DecodeAsWritten(tag: string): (r: Option<Target>)
    ensures |Split(tag)| < 6 ==> r.None?
    ensures var parts := Split(tag);
            r.Some? <==>
              |parts| >= 6 && ParseInt(parts[3]).Some? && ParseInt(parts[4]).Some? && ParseInt(parts[5]).Some?
    ensures r.Some? ==>
              var parts := Split(tag);
              && r.value.member == parts[2]
              && r.value.start == ParseInt(parts[3]).value
              && r.value.end == ParseInt(parts[4]).value
              && r.value.index == ParseInt(parts[5]).value
  {
    var parts := Split(tag);
    if |parts| < 6 then None
    else
      match (ParseInt(parts[3]), ParseInt(parts[4]), ParseInt(parts[5]))
      case (Some(s), Some(e), Some(j)) => Some(Target(parts[2], s, e, j))
      case _ => None
  }

  /** For a member name without `_`, the decoder as written reads back what was encoded. */
  lemma DecodeAsWrittenRoundTrip(t: Target)
    requires Sep !in t.member
    ensures DecodeAsWritten(Encode(t)) == Some(t)
  {
    EncodeSplit(t);
    SplitPlain(t.member);
    IntRoundTrip(t.start);
    IntRoundTrip(t.end);
    IntRoundTrip(t.index);
  }

  /**
   * A member name made of a plain word, `_` and an integer is misread: the
   * word becomes the member, the integer the start, the start the end, and
   * the end the index.
   */
  lemma DecodeAsWrittenShifts(word: string, k: int, t: Target)
    requires Sep !in word
    requires t.member == word + [Sep] + IntToStr(k)
    ensures DecodeAsWritten(Encode(t)) == Some(Target(word, k, t.start, t.end))
  {
    EncodeSplit(t);
    SplitJoined(word, IntToStr(k));
    SplitPlain(word);
    SplitPlain(IntToStr(k));
    IntRoundTrip(k);
    IntRoundTrip(t.start);
    IntRoundTrip(t.end);
  }

  /**
   * The member `a_1` with schedule `(9, 17)` at index 0 is read back as
   * member `a` with schedule `(1, 9)` at index 17.
   */
  lemma DecodeAsWrittenMisreadsName()
    ensures DecodeAsWritten(Encode(Target("a_1", 9, 17, 0))) == Some(Target("a", 1, 9, 17))
  {
    assert IntToStr(1) == "1";
    assert "a_1" == "a" + [Sep] + IntToStr(1);
    DecodeAsWrittenShifts("a", 1, Target("a_1", 9, 17, 0));
  }

  /**
   * A decoder that reads the three numbers from the last three parts and
   * the name from everything between `bar` and them, so names may contain
   * `_`. It agrees with `DecodeAsWritten` on tags of exactly six parts.
   */
  function Decode(tag: string): (r: Option<Target>)
    ensures |Split(tag)| == 6 ==> r == DecodeAsWritten(tag)
    ensures |Split(tag)| < 6 ==> r.None?
  {
    var parts := Split(tag);
    var n := |parts|;
    if n < 6 then None
    else
      match (ParseInt(parts[n - 3]), ParseInt(parts[n - 2]), ParseInt(parts[n - 1]))
      case (Some(s), Some(e), Some(j)) =>
        assert n == 6 ==> parts[2..n - 3] == [parts[2]];
        Some(Target(Join(parts[2..n - 3]), s, e, j))
      case _ => None
  }

  /** Every tag the encoder writes decodes back to its target, whatever the member name. */
  lemma DecodeRoundTrip(t: Target)
    ensures Decode(Encode(t)) == Some(t)
  {
    EncodeSplit(t);
    var parts := Split(Encode(t));
    var n := |parts|;
    var name := Split(t.member);
    assert parts[2..n - 3] == name;
    JoinSplit(t.member);
    IntRoundTrip(t.start);
    IntRoundTrip(t.end);
    IntRoundTrip(t.index);
  }
}
