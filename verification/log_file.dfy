/** The daemon's log: one current file, one previous file, rotation that may fail, and a hard cap. */
module LogFiles {
  import opened Common

  const MAX_LINE_BYTES: nat := 4096
  const HARD_CAP_FACTOR: nat := 4
  const U64_MAX: nat := 0xFFFF_FFFF_FFFF_FFFF

  // ---- one line ----------------------------------------------------------------------------------

  /** Line breaks become spaces. */
  function Flat(c: char): char {
    if c as int == 10 || c as int == 13 then ' ' else c
  }

  function FlatText(s: string): (r: string)
    ensures |r| == |s| && forall i :: 0 <= i < |s| ==> r[i] == Flat(s[i])
  {
    seq(|s|, i requires 0 <= i < |s| => Flat(s[i]))
  }

  /** How many characters of `s` fit in `room` octets. */
  function Fitting(s: string, room: nat): (n: nat)
    ensures n <= |s|
  {
    if s == "" || CharOctets(Flat(s[0])) > room then 0 else 1 + Fitting(s[1..], room - CharOctets(Flat(s[0])))
  }

  /** A time, as much of the text as fits, and one newline. */
  function Rendered(prefix: string, text: string): string {
    prefix + FlatText(text)[..Fitting(text, MAX_LINE_BYTES)] + "\n"
  }

  /** The line is built character by character while there is room. */
  method Render(prefix: string, text: string) returns (line: string)
    ensures line == Rendered(prefix, text)
  {
    line := prefix;
    var room: nat, i := MAX_LINE_BYTES, 0;
    assert text[0..] == text;
    while i < |text|
      invariant 0 <= i <= |text| && line == prefix + FlatText(text)[..i]
      invariant Fitting(text, MAX_LINE_BYTES) == i + Fitting(text[i..], room)
    {
      var c := Flat(text[i]);
      if CharOctets(c) > room {
        break;
      }
      room := room - CharOctets(c);
      line := line + [c];
      assert text[i..][1..] == text[i + 1..];
      assert FlatText(text)[..i + 1] == FlatText(text)[..i] + [c];
      i := i + 1;
    }
    line := line + "\n";
  }

  lemma {:induction false} FittingIsLongest(s: string, room: nat)
    ensures var n := Fitting(s, room);
            && OctetLength(FlatText(s)[..n]) <= room
            && (n < |s| ==> OctetLength(FlatText(s)[..n + 1]) > room)
  {
    var n := Fitting(s, room);
    if s != "" && CharOctets(Flat(s[0])) <= room {
      FittingIsLongest(s[1..], room - CharOctets(Flat(s[0])));
      assert FlatText(s)[1..] == FlatText(s[1..]);
      assert FlatText(s)[..n][1..] == FlatText(s[1..])[..n - 1];
      if n < |s| {
        assert FlatText(s)[..n + 1][1..] == FlatText(s[1..])[..n];
      }
    } else if s != "" {
      assert FlatText(s)[..1] == [Flat(s[0])];
    }
  }

  predicate IsBreak(c: char) {
    c as int == 10 || c as int == 13
  }

  /** One call is one line: no break but the newline at its end, and the longest prefix of the text that
      is at most `MAX_LINE_BYTES` octets. */
  lemma RenderedIsOneLine(prefix: string, text: string)
    requires forall i :: 0 <= i < |prefix| ==> !IsBreak(prefix[i])
    ensures var line := Rendered(prefix, text);
            && line[|line| - 1] == '\n' && (forall i :: 0 <= i < |line| - 1 ==> !IsBreak(line[i]))
            && OctetLength(line) <= OctetLength(prefix) + MAX_LINE_BYTES + 1
    ensures var n := Fitting(text, MAX_LINE_BYTES);
            n < |text| ==> OctetLength(FlatText(text)[..n + 1]) > MAX_LINE_BYTES
  {
    var body := FlatText(text)[..Fitting(text, MAX_LINE_BYTES)];
    FittingIsLongest(text, MAX_LINE_BYTES);
    OctetLengthJoin(prefix + body, "\n");
    OctetLengthJoin(prefix, body);
    assert "\n"[1..] == "";
  }

  // ---- the files ---------------------------------------------------------------------------------

  /** The octets of the writes that made a file. */
  function Size(writes: seq<string>): nat {
    if writes == [] then 0 else OctetLength(writes[|writes| - 1]) + Size(writes[..|writes| - 1])
  }

  lemma SizeOfMore(writes: seq<string>, w: string)
    ensures Size(writes + [w]) == Size(writes) + OctetLength(w)
  {
    assert (writes + [w])[..|writes|] == writes;
  }

  /** An optional restart marker and then every write from `kept` on. */
  function Content(marker: Option<string>, written: seq<string>, kept: nat): seq<string>
    requires kept <= |written|
  {
    (if marker.Some? then [marker.value] else []) + written[kept..]
  }

  lemma ContentOfMore(marker: Option<string>, written: seq<string>, kept: nat, w: string)
    requires kept <= |written|
    ensures Content(marker, written + [w], kept) == Content(marker, written, kept) + [w]
  {
    assert (written + [w])[kept..] == written[kept..] + [w];
  }

  lemma NewContent(marker: Option<string>, written: seq<string>)
    ensures Content(marker, written, |written|) == if marker.Some? then [marker.value] else []
  {
    assert written[|written|..] == [];
  }

  /** Four times the limit, saturating. */
  function HardCap(limit: nat): nat {
    Min(limit * HARD_CAP_FACTOR, U64_MAX)
  }

  // ---- how the size goes -------------------------------------------------------------------------

  /** A line to append, and the marker should its call begin the file again. */
  datatype Line = Line(text: string, restarted: string)

  /** What the file system does during one call: whether the rename, the reopening and the truncating open
      fail, and where a write of the marker or of the line is cut. */
  datatype Faults = Faults(rename: bool, reopen: bool, truncate: bool, markerCut: Option<nat>, lineCut: Option<nat>)

  const NO_FAULTS := Faults(false, false, false, None, None)

  /** Whether the log holds its file, the octets in the file, and the size it tracks. */
  datatype Measure = Measure(open: bool, octets: nat, size: nat) {
    /** A log without its file tracks nothing; failed writes leave octets it does not track. */
    predicate Sound() {
      if open then size <= octets else size == 0
    }

    /** The octets in the file that are not tracked. */
    function Untracked(): nat
      requires Sound()
    {
      if open then octets - size else 0
    }
  }

  /** The part of a text that a write leaves. */
  function Part(text: string, cut: Option<nat>): (part: string)
    ensures part <= text && (cut.None? ==> part == text)
  {
    if cut.None? then text else text[..Min(cut.value, |text|)]
  }

  lemma PartIsShorter(text: string, cut: Option<nat>)
    ensures OctetLength(Part(text, cut)) <= OctetLength(text)
  {
    var part := Part(text, cut);
    OctetLengthJoin(part, text[|part|..]);
    assert part + text[|part|..] == text;
  }

  function AfterWrite(m: Measure, text: string, cut: Option<nat>): Measure {
    var octets := m.octets + OctetLength(Part(text, cut));
    Measure(m.open, octets, if cut.None? then m.size + OctetLength(text) else m.size)
  }

  /** The log when it is ready for the line, or as a failure leaves it. */
  function AfterRoom(limit: nat, m: Measure, line: Line, f: Faults): (Measure, bool) {
    if m.size > 0 && m.size + OctetLength(line.text) > limit then
      if !f.rename then (Measure(!f.reopen, 0, 0), !f.reopen)
      else if m.size + OctetLength(line.text) <= HardCap(limit) then (m, true)
      else if f.truncate then (Measure(false, m.octets, 0), false)
      else (AfterWrite(Measure(true, 0, 0), line.restarted, f.markerCut), f.markerCut.None?)
    else if m.open then (m, true)
    else if f.reopen then (m, false)
    else (Measure(true, m.octets, m.octets), true)
  }

  /** What one call makes of the log, and whether it succeeds. */
  function AfterAppend(limit: nat, m: Measure, line: Line, f: Faults): (Measure, bool) {
    var (n, ready) := AfterRoom(limit, m, line, f);
    if ready then (AfterWrite(n, line.text, f.lineCut), f.lineCut.None?) else (n, false)
  }

  /** What a file may hold after a line was added to it. */
  function Bound(limit: nat, line: Line): nat {
    Max(HardCap(limit), OctetLength(line.restarted) + OctetLength(line.text))
  }

  lemma WriteKeepsSound(m: Measure, text: string, cut: Option<nat>)
    requires m.Sound() && m.open
    ensures var n := AfterWrite(m, text, cut);
            && n.Sound() && m.octets <= n.octets <= m.octets + OctetLength(text)
            && (cut.None? ==> n.octets == m.octets + OctetLength(text) && n.Untracked() == m.Untracked())
            && (cut.Some? ==> n.Untracked() <= m.Untracked() + OctetLength(text))
  {
    PartIsShorter(text, cut);
  }

  lemma RoomKeepsBound(limit: nat, m: Measure, line: Line, f: Faults)
    requires m.Sound() && limit <= U64_MAX
    ensures var (n, ready) := AfterRoom(limit, m, line, f);
            && n.Sound() && (ready ==> n.open)
            && n.octets <= Max(m.octets, OctetLength(line.restarted))
            && (ready ==> n.Untracked() <= m.Untracked())
            && (ready && m.open ==> n.size + OctetLength(line.text) <= Bound(limit, line))
            && (ready && !m.open ==> n.octets == m.octets && n.Untracked() == 0)
            && (!ready ==> n.Untracked() <= OctetLength(line.restarted))
  {
    WriteKeepsSound(Measure(true, 0, 0), line.restarted, f.markerCut);
  }

  /** What one call does: one that succeeds on a log that holds its file leaves the file within the bound,
      but for what failed writes left there before; on a log that has lost its file it adds the line to the
      file as it is; one that fails adds no more than its own texts. */
  predicate Appended(limit: nat, m: Measure, n: Measure, line: Line, ok: bool)
    requires m.Sound()
  {
    var length, bound := OctetLength(line.text), Bound(limit, line);
    && n.Sound() && (ok ==> n.open)
    && (ok && m.open ==> n.octets <= bound + m.Untracked() && n.Untracked() <= m.Untracked())
    && (ok && !m.open ==> n.octets == m.octets + length && n.Untracked() == 0)
    && (!ok ==> n.octets <= Max(m.octets + length, bound))
    && (!ok ==> n.Untracked() <= m.Untracked() + Max(length, OctetLength(line.restarted)))
  }

  lemma AppendKeepsBound(limit: nat, m: Measure, line: Line, f: Faults)
    requires m.Sound() && limit <= U64_MAX
    ensures var (n, ok) := AfterAppend(limit, m, line, f); Appended(limit, m, n, line, ok)
  {
    var (n, ready) := AfterRoom(limit, m, line, f);
    RoomKeepsBound(limit, m, line, f);
    if ready {
      WriteKeepsSound(n, line.text, f.lineCut);
    }
  }

  // ---- when the bound holds ----------------------------------------------------------------------

  /** A call that succeeds leaves the file within the bound. */
  predicate WithinBound(limit: nat, m: Measure, line: Line, f: Faults) {
    var (n, ok) := AfterAppend(limit, m, line, f);
    ok ==> n.octets <= Bound(limit, line)
  }

  /** The line fits in the file as it is, or the tracked size makes the call leave that file: by a rename, or
      past the hard cap by a restart. */
  predicate BoundAhead(limit: nat, m: Measure, line: Line) {
    || m.octets + OctetLength(line.text) <= Bound(limit, line)
    || (m.size > 0 && m.size + OctetLength(line.text) > HardCap(limit))
  }

  lemma BoundAheadHolds(limit: nat, m: Measure, line: Line, f: Faults)
    requires m.Sound() && limit <= U64_MAX && BoundAhead(limit, m, line)
    ensures WithinBound(limit, m, line, f)
  {
  }

  /** Otherwise a call whose rename fails, or needs none, succeeds past the bound. */
  lemma PastTheBound(limit: nat, m: Measure, line: Line)
    requires m.Sound() && limit <= U64_MAX && !BoundAhead(limit, m, line)
    ensures var (n, ok) := AfterAppend(limit, m, line, Faults(true, false, false, None, None));
            ok && n.octets == m.octets + OctetLength(line.text) > Bound(limit, line)
  {
  }

  /** A call is certain to leave the file within the bound if it succeeds, whatever fails meanwhile, exactly
      when the line fits in the file as it is or the call will not write to that file. That is so of a log
      that holds its file and tracks all of it. */
  lemma BoundExactly(limit: nat, m: Measure, line: Line)
    requires m.Sound() && limit <= U64_MAX
    ensures (forall f :: WithinBound(limit, m, line, f)) <==> BoundAhead(limit, m, line)
    ensures m.open && m.Untracked() == 0 ==> BoundAhead(limit, m, line)
  {
    if BoundAhead(limit, m, line) {
      forall f ensures WithinBound(limit, m, line, f) {
        BoundAheadHolds(limit, m, line, f);
      }
    } else {
      PastTheBound(limit, m, line);
      assert !WithinBound(limit, m, line, Faults(true, false, false, None, None));
    }
  }

  // ---- runs --------------------------------------------------------------------------------------

  predicate AllOk(oks: seq<bool>) {
    forall i :: 0 <= i < |oks| ==> oks[i]
  }

  ghost predicate Stepped(limit: nat, m: Measure, line: Line, f: Faults, n: Measure, ok: bool) {
    AfterAppend(limit, m, line, f) == (n, ok)
  }

  /** A run of calls: `ms` are the states passed through and `oks` tells which calls succeed. */
  ghost predicate IsRun(limit: nat, ms: seq<Measure>, lines: seq<Line>, faults: seq<Faults>, oks: seq<bool>) {
    && |ms| == |lines| + 1 && |faults| == |oks| == |lines|
    && forall k :: 0 <= k < |lines| ==> Stepped(limit, ms[k], lines[k], faults[k], ms[k + 1], oks[k])
  }

  lemma RunMore(limit: nat, ms: seq<Measure>, lines: seq<Line>, faults: seq<Faults>, oks: seq<bool>,
                line: Line, f: Faults, n: Measure, ok: bool)
    requires IsRun(limit, ms, lines, faults, oks) && Stepped(limit, ms[|lines|], line, f, n, ok)
    ensures IsRun(limit, ms + [n], lines + [line], faults + [f], oks + [ok])
  {
  }

  /** The bound of the longest of the texts. */
  function RunBound(limit: nat, lines: seq<Line>): nat {
    if lines == [] then HardCap(limit) else Max(RunBound(limit, lines[..|lines| - 1]), Bound(limit, lines[|lines| - 1]))
  }

  function Share(line: Line, ok: bool, afterFailure: bool): nat {
    if ok && !afterFailure then 0 else Max(OctetLength(line.text), OctetLength(line.restarted))
  }

  /** The octets that failures explain: the texts of each call that failed, and of each that came straight
      after one and so may have found the log without its file. */
  function Excess(lines: seq<Line>, oks: seq<bool>): nat
    requires |lines| == |oks|
  {
    if lines == [] then 0
    else
      var k := |lines| - 1;
      Excess(lines[..k], oks[..k]) + Share(lines[k], oks[k], k > 0 && !oks[k - 1])
  }

  /** What a run of calls on a log found with `found` octets leaves: only a failed call lets go of the
      file, and what is over the bound is the excess. While none has failed, the file is within the bound of
      its newest line. */
  predicate Explained(limit: nat, found: nat, m: Measure, lines: seq<Line>, oks: seq<bool>)
    requires |lines| == |oks|
  {
    && m.Sound() && (!m.open ==> oks != [] && !oks[|oks| - 1])
    && m.Untracked() <= Excess(lines, oks)
    && m.octets <= Max(RunBound(limit, lines), found) + Excess(lines, oks)
    && (lines != [] && AllOk(oks) ==> m.octets <= Bound(limit, lines[|lines| - 1]))
  }

  lemma RunGrows(limit: nat, lines: seq<Line>, oks: seq<bool>, line: Line, ok: bool)
    requires |lines| == |oks|
    ensures RunBound(limit, lines + [line]) == Max(RunBound(limit, lines), Bound(limit, line))
    ensures Excess(lines + [line], oks + [ok]) == Excess(lines, oks) + Share(line, ok, oks != [] && !oks[|oks| - 1])
  {
    Cut(lines, [line]);
    Cut(oks, [ok]);
  }

  lemma {:induction false} NoExcess(lines: seq<Line>, oks: seq<bool>)
    requires |lines| == |oks| && AllOk(oks)
    ensures Excess(lines, oks) == 0
  {
    if lines != [] {
      NoExcess(lines[..|lines| - 1], oks[..|lines| - 1]);
    }
  }

  lemma ExplainedMore(limit: nat, found: nat, m: Measure, n: Measure,
                      lines: seq<Line>, oks: seq<bool>, line: Line, ok: bool)
    requires |lines| == |oks| && Explained(limit, found, m, lines, oks) && Appended(limit, m, n, line, ok)
    ensures Explained(limit, found, n, lines + [line], oks + [ok])
  {
    RunGrows(limit, lines, oks, line, ok);
    if AllOk(oks + [ok]) {
      assert ok && forall i :: 0 <= i < |oks| ==> oks[i] == (oks + [ok])[i];
      NoExcess(lines, oks);
    }
  }

  lemma OneMore<T>(s: seq<T>, i: nat)
    requires i < |s|
    ensures s[..i] + [s[i]] == s[..i + 1]
  {
  }

  lemma StepAppended(limit: nat, m: Measure, line: Line, f: Faults, n: Measure, ok: bool)
    requires m.Sound() && limit <= U64_MAX && Stepped(limit, m, line, f, n, ok)
    ensures Appended(limit, m, n, line, ok)
  {
    AppendKeepsBound(limit, m, line, f);
  }

  /** After every call of every run, whatever fails, the file is within the bound of its longest texts, or
      what it was found with, and the excess that failures explain. While every call succeeds it is within
      the bound of each line once that is written. */
  lemma {:induction false} EveryRunExplained(limit: nat, ms: seq<Measure>, lines: seq<Line>, faults: seq<Faults>,
                                             oks: seq<bool>, k: nat)
    requires limit <= U64_MAX && IsRun(limit, ms, lines, faults, oks) && k <= |lines|
    requires ms[0].Sound() && ms[0].open && ms[0].Untracked() == 0
    ensures Explained(limit, ms[0].octets, ms[k], lines[..k], oks[..k])
    decreases k
  {
    if k > 0 {
      var i := k - 1;
      EveryRunExplained(limit, ms, lines, faults, oks, i);
      StepAppended(limit, ms[i], lines[i], faults[i], ms[k], oks[i]);
      ExplainedMore(limit, ms[0].octets, ms[i], ms[k], lines[..i], oks[..i], lines[i], oks[i]);
      OneMore(lines, i);
      OneMore(oks, i);
    }
  }

  /** A rename and a truncating open fail. */
  const OBSTRUCTED := Faults(true, false, true, None, None)

  /** The first call lets go of the file, and the second adds its line to it. */
  lemma GrowsInTwo(limit: nat, octets: nat, line: Line)
    requires limit <= U64_MAX && 0 < octets && HardCap(limit) < octets + OctetLength(line.text)
    ensures var more := octets + OctetLength(line.text);
            && AfterAppend(limit, Measure(true, octets, octets), line, OBSTRUCTED) == (Measure(false, octets, 0), false)
            && AfterAppend(limit, Measure(false, octets, 0), line, NO_FAULTS) == (Measure(true, more, more), true)
  {
  }

  /** The file, of `octets` and `n` more lines, held by the log or let go. */
  function Growing(octets: nat, length: nat, n: nat, open: bool): Measure {
    Measure(open, octets + n * length, if open then octets + n * length else 0)
  }

  lemma GrowingSteps(limit: nat, octets: nat, line: Line, n: nat)
    requires limit <= U64_MAX && 0 < octets && HardCap(limit) < octets + OctetLength(line.text)
    ensures var length := OctetLength(line.text);
            var held, lost := Growing(octets, length, n, true), Growing(octets, length, n, false);
            && Stepped(limit, held, line, OBSTRUCTED, lost, false)
            && Stepped(limit, lost, line, NO_FAULTS, Growing(octets, length, n + 1, true), true)
  {
    var length := OctetLength(line.text);
    assert (n + 1) * length == n * length + length;
    GrowsInTwo(limit, octets + n * length, line);
  }

  /** The state after `k` calls of which each first one is obstructed. */
  function GrowingAt(octets: nat, length: nat, k: nat): Measure {
    Growing(octets, length, k / 2, k % 2 == 0)
  }

  function ObstructedAt(k: nat): Faults {
    if k % 2 == 0 then OBSTRUCTED else NO_FAULTS
  }

  lemma GrowingStep(limit: nat, octets: nat, line: Line, k: nat)
    requires limit <= U64_MAX && 0 < octets && HardCap(limit) < octets + OctetLength(line.text)
    ensures var length := OctetLength(line.text);
            var m, n := GrowingAt(octets, length, k), GrowingAt(octets, length, k + 1);
            Stepped(limit, m, line, ObstructedAt(k), n, k % 2 == 1)
  {
    GrowingSteps(limit, octets, line, k / 2);
    assert (k + 1) / 2 == k / 2 + k % 2 && (k + 1) % 2 == 1 - k % 2;
  }

  /** While truncating opens fail the cap holds nothing: each second call succeeds and adds its line, so
      the file grows past every size. */
  lemma GrowsPastTheCap(limit: nat, octets: nat, line: Line, n: nat)
    returns (ms: seq<Measure>, faults: seq<Faults>, oks: seq<bool>)
    requires limit <= U64_MAX && 0 < octets && HardCap(limit) < octets + OctetLength(line.text)
    ensures IsRun(limit, ms, seq(n, _ => line), faults, oks) && ms[0] == Measure(true, octets, octets)
    ensures forall k :: 0 <= k < n ==> oks[k] == (k % 2 == 1)
    ensures ms[n].octets == octets + n / 2 * OctetLength(line.text)
  {
    var length := OctetLength(line.text);
    ms := seq(n + 1, k requires 0 <= k => GrowingAt(octets, length, k));
    faults := seq(n, k requires 0 <= k => ObstructedAt(k));
    oks := seq(n, k => k % 2 == 1);
    forall k | 0 <= k < n ensures Stepped(limit, ms[k], line, faults[k], ms[k + 1], oks[k]) {
      GrowingStep(limit, octets, line, k);
    }
  }

  /** The line reaches the file whole, and then the write or the flush reports a failure. */
  function UncountedOf(line: Line): Faults {
    NO_FAULTS.(lineCut := Some(|line.text|))
  }

  lemma UncountedStep(limit: nat, m: Measure, line: Line, k: nat)
    requires m.open && (m.size == 0 || m.size + OctetLength(line.text) <= limit)
    ensures var length := OctetLength(line.text);
            var n, n' := m.(octets := m.octets + k * length), m.(octets := m.octets + (k + 1) * length);
            && Stepped(limit, n, line, UncountedOf(line), n', false)
            && Stepped(limit, n, line, NO_FAULTS, n'.(size := m.size + length), true)
  {
    var length := OctetLength(line.text);
    assert (k + 1) * length == k * length + length;
    assert line.text[..|line.text|] == line.text;
  }

  /** Nor does holding the file: a failed write leaves its octets in the file and not in the tracked size, so
      no rotation comes due however far the file grows, and a call that then succeeds adds to it. */
  lemma GrowsUncounted(limit: nat, m: Measure, line: Line, n: nat)
    returns (ms: seq<Measure>, faults: seq<Faults>, oks: seq<bool>)
    requires m.open && (m.size == 0 || m.size + OctetLength(line.text) <= limit)
    ensures IsRun(limit, ms, seq(n + 1, _ => line), faults, oks) && ms[0] == m
    ensures forall k :: 0 <= k <= n + 1 ==> ms[k].open && ms[k].octets == m.octets + k * OctetLength(line.text)
    ensures faults[n] == NO_FAULTS && oks[n] && forall k :: 0 <= k < n ==> !oks[k]
  {
    var length := OctetLength(line.text);
    ms := seq(n + 2, k requires 0 <= k =>
                m.(octets := m.octets + k * length, size := if k <= n then m.size else m.size + length));
    faults := seq(n + 1, k => if k < n then UncountedOf(line) else NO_FAULTS);
    oks := seq(n + 1, k => k == n);
    forall k | 0 <= k < n + 1 ensures Stepped(limit, ms[k], line, faults[k], ms[k + 1], oks[k]) {
      UncountedStep(limit, m, line, k);
    }
  }

  // ---- the writes --------------------------------------------------------------------------------

  /** At most one write, a part of the line or of the restart marker, has followed `before`. */
  ghost predicate AddsPart(before: seq<string>, after: seq<string>, line: Line) {
    after == before || (exists part :: (part <= line.text || part <= line.restarted) && after == before + [part])
  }

  ghost predicate Wrote(before: seq<string>, after: seq<string>, line: Line, ok: bool) {
    if ok then after == before + [line.text] else AddsPart(before, after, line)
  }

  /** A run's writes: each line whose call succeeded, and of any other at most one part of its texts. */
  ghost predicate Reached(before: seq<string>, after: seq<string>, lines: seq<Line>, oks: seq<bool>)
    requires |lines| == |oks|
    decreases |lines|
  {
    if lines == [] then after == before
    else
      var k := |lines| - 1;
      exists mid :: Reached(before, mid, lines[..k], oks[..k]) && Wrote(mid, after, lines[k], oks[k])
  }

  lemma ReachedMore(before: seq<string>, mid: seq<string>, after: seq<string>,
                    lines: seq<Line>, oks: seq<bool>, line: Line, ok: bool)
    requires |lines| == |oks| && Reached(before, mid, lines, oks) && Wrote(mid, after, line, ok)
    ensures Reached(before, after, lines + [line], oks + [ok])
  {
    Cut(lines, [line]);
    Cut(oks, [ok]);
  }

  function Texts(lines: seq<Line>): seq<string> {
    seq(|lines|, i requires 0 <= i < |lines| => lines[i].text)
  }

  /** When every call succeeded, the writes are the lines. */
  lemma {:induction false} AllReached(before: seq<string>, after: seq<string>, lines: seq<Line>, oks: seq<bool>)
    requires |lines| == |oks| && Reached(before, after, lines, oks) && AllOk(oks)
    ensures after == before + Texts(lines)
    decreases |lines|
  {
    if lines != [] {
      var k := |lines| - 1;
      var mid :| Reached(before, mid, lines[..k], oks[..k]) && Wrote(mid, after, lines[k], oks[k]);
      AllReached(before, mid, lines[..k], oks[..k]);
      assert Texts(lines) == Texts(lines[..k]) + [lines[k].text];
    }
  }

  /** `current` and `previous` are the files, each as the writes that made it; `open` says whether the log
      holds a handle on the current one. `written` is every write that reached a log file, and `kept` how
      many of them are in no longer the current file. What fails is a parameter of each call. */
  class LogFile {
    const limit: nat
    var current: Option<seq<string>>
    var previous: Option<seq<string>>
    var open: bool
    var size: nat
    ghost var written: seq<string>
    ghost var kept: nat
    ghost var marker: Option<string>

    constructor (limit: nat, found: Option<seq<string>>, previous: Option<seq<string>>)
      requires limit <= U64_MAX
      ensures Valid() && this.limit == limit && this.previous == previous && Measured() == Measure(true, size, size)
      ensures marker.None? && written == (if found.None? then [] else found.value) && kept == 0
    {
      this.limit, this.previous := limit, previous;
      var content := if found.None? then [] else found.value;
      current, open, size := Some(content), true, Size(content);
      written, kept, marker := content, 0, None;
    }

    ghost function Measured(): Measure
      reads this
    {
      Measure(open, if current.None? then 0 else Size(current.value), size)
    }

    /** The current file is an optional restart marker and then every write since some point, in order. */
    ghost predicate Valid()
      reads this
    {
      && limit <= U64_MAX && kept <= |written| && Measured().Sound() && (open ==> current.Some?)
      && (current.Some? ==> current.value == Content(marker, written, kept))
    }

    /** Open the current file for append, creating it when it is missing; its real size is taken. */
    method OpenForAppend(fails: bool) returns (ok: bool)
      requires Valid() && !open
      modifies this`current, this`open, this`size, this`kept, this`marker
      ensures Valid() && ok == !fails
      ensures Measured() == if fails then old(Measured()) else var n := old(Measured()).octets; Measure(true, n, n)
      ensures !ok || old(current).Some? ==> current == old(current) && kept == old(kept) && marker == old(marker)
      ensures ok && old(current).None? ==> current == Some([]) && kept == |written| && marker.None?
    {
      if fails {
        return false;
      }
      if current.None? {
        current, kept, marker := Some([]), |written|, None;
        NewContent(None, written);
      }
      open, size := true, Size(current.value);
      ok := true;
    }

    /** One write to the open file; one that fails may leave a part of the line there. */
    method WriteLine(line: string, cut: Option<nat>) returns (ok: bool)
      requires Valid() && open
      modifies this`current, this`size, this`written
      ensures Valid() && ok == cut.None? && Measured() == AfterWrite(old(Measured()), line, cut)
      ensures current == Some(old(current).value + [Part(line, cut)]) && written == old(written) + [Part(line, cut)]
    {
      var part := Part(line, cut);
      SizeOfMore(current.value, part);
      ContentOfMore(marker, written, kept, part);
      current, written := Some(current.value + [part]), written + [part];
      ok := cut.None?;
      if ok {
        size := size + OctetLength(line);
      }
    }

    /** Open the current file truncated. */
    method OpenTruncated(fails: bool) returns (ok: bool)
      requires Valid() && !open
      modifies this`current, this`open, this`kept, this`marker
      ensures Valid() && open == ok == !fails
      ensures ok ==> current == Some([]) && kept == |written| && marker.None?
      ensures !ok ==> current == old(current) && kept == old(kept) && marker == old(marker)
    {
      if fails {
        return false;
      }
      NewContent(None, written);
      current, kept, marker, open := Some([]), |written|, None, true;
      ok := true;
    }

    /** Write the marker to a file just truncated; it is none of the lines. */
    method WriteMarker(text: string, cut: Option<nat>) returns (ok: bool)
      requires Valid() && open && current == Some([]) && size == 0 && kept == |written| && marker.None?
      modifies this`current, this`size, this`written, this`marker
      ensures Valid() && ok == cut.None? && Measured() == AfterWrite(old(Measured()), text, cut)
      ensures if ok then written == old(written) && marker == Some(text)
              else written == old(written) + [Part(text, cut)] && marker.None?
    {
      ok := WriteLine(text, cut);
      if ok {
        assert [] + [text] == [text];
        written, marker := old(written), Some(text);
        NewContent(marker, written);
      }
    }

    /** Begin the current file again with a marker; the previous file is not touched. A failure leaves the
        file as it was and closed, or begun with a part of the marker. */
    method Restart(text: string, f: Faults) returns (ok: bool)
      requires Valid() && open
      modifies this`current, this`open, this`size, this`written, this`kept, this`marker
      ensures Valid() && ok == (!f.truncate && f.markerCut.None?)
      ensures f.truncate ==> Measured() == Measure(false, old(Measured()).octets, 0)
      ensures f.truncate ==> current == old(current) && written == old(written) && marker == old(marker)
      ensures !f.truncate ==> Measured() == AfterWrite(Measure(true, 0, 0), text, f.markerCut)
      ensures ok ==> written == old(written) && kept == |written| && marker == Some(text)
      ensures !ok && !f.truncate ==> written == old(written) + [Part(text, f.markerCut)] && marker.None?
    {
      open, size := false, 0;
      ok := OpenTruncated(f.truncate);
      if ok {
        ok := WriteMarker(text, f.markerCut);
      }
    }

    /** Keep the current file as the previous one and begin a new one. A rename that fails changes
        nothing. */
    method Rotate(f: Faults) returns (ok: bool)
      requires Valid() && open
      modifies this`current, this`previous, this`open, this`size, this`kept, this`marker
      ensures Valid() && ok == (!f.rename && !f.reopen)
      ensures f.rename ==> previous == old(previous) && current == old(current) && Measured() == old(Measured())
      ensures f.rename ==> kept == old(kept) && marker == old(marker)
      ensures !f.rename ==> previous == old(current) && Measured() == Measure(ok, 0, 0)
      ensures !f.rename ==> current == (if ok then Some([]) else None) && (marker == old(marker) || marker.None?)
      ensures ok ==> kept == |written| && marker.None?
    {
      if f.rename {
        return false;
      }
      previous := current;
      current, open, size := None, false, 0;
      ok := OpenForAppend(f.reopen);
    }

    /** Rotate when the line would take the file past the limit, and past the hard cap begin the file
        again. */
    method MakeRoom(line: Line, f: Faults) returns (ok: bool)
      requires Valid()
      modifies this
      ensures Valid() && (Measured(), ok) == AfterRoom(limit, old(Measured()), line, f) && (ok ==> open)
      ensures marker == old(marker) || marker.None? || marker == Some(line.restarted)
      ensures if ok then written == old(written) else AddsPart(old(written), written, line)
      ensures previous == old(previous) || (previous == old(current) && old(open))
    {
      if size > 0 && size + OctetLength(line.text) > limit {
        var rotated := Rotate(f);
        if !rotated {
          if !open {
            return false;
          }
          if size + OctetLength(line.text) > HardCap(limit) {
            var begun := Restart(line.restarted, f);
            if !begun {
              return false;
            }
          }
        }
      }
      ok := true;
      if !open {
        ok := OpenForAppend(f.reopen);
      }
    }

    /** Append one line. Its size and its success are `AfterAppend`. A line that was appended is the last of
        the current file; a failed call adds at most one part of a text. The previous file changes only to
        what the current one was. */
    method Append(line: Line, f: Faults) returns (ok: bool)
      requires Valid()
      modifies this
      ensures Valid() && (Measured(), ok) == AfterAppend(limit, old(Measured()), line, f)
      ensures ok && old(open) && old(Measured().Untracked()) == 0 ==> Size(current.value) <= Bound(limit, line)
      ensures ok ==> current.Some? && current.value != [] && current.value[|current.value| - 1] == line.text
      ensures Wrote(old(written), written, line, ok)
      ensures marker == old(marker) || marker.None? || marker == Some(line.restarted)
      ensures previous == old(previous) || (previous == old(current) && old(open))
    {
      AppendKeepsBound(limit, Measured(), line, f);
      ok := MakeRoom(line, f);
      if ok {
        ok := WriteLine(line.text, f.lineCut);
      }
    }

    /** Append lines in turn, whatever fails. Every line whose call succeeded was written once, in order. */
    method AppendAll(lines: seq<Line>, faults: seq<Faults>) returns (oks: seq<bool>, ghost ms: seq<Measure>)
      requires Valid() && |lines| == |faults|
      modifies this
      ensures Valid() && IsRun(limit, ms, lines, faults, oks)
      ensures ms[0] == old(Measured()) && ms[|lines|] == Measured()
      ensures Reached(old(written), written, lines, oks)
      ensures AllOk(oks) ==> written == old(written) + Texts(lines)
    {
      oks, ms := [], [Measured()];
      for k := 0 to |lines|
        invariant Valid() && |oks| == k == |ms| - 1 && ms[0] == old(Measured()) && ms[k] == Measured()
        invariant IsRun(limit, ms, lines[..k], faults[..k], oks) && Reached(old(written), written, lines[..k], oks)
      {
        ghost var before := written;
        var ok := Append(lines[k], faults[k]);
        ReachedMore(old(written), before, written, lines[..k], oks, lines[k], ok);
        RunMore(limit, ms, lines[..k], faults[..k], oks, lines[k], faults[k], Measured(), ok);
        OneMore(lines, k);
        OneMore(faults, k);
        oks, ms := oks + [ok], ms + [Measured()];
      }
      assert lines[..|lines|] == lines && faults[..|lines|] == faults;
      if AllOk(oks) {
        AllReached(old(written), written, lines, oks);
      }
    }
  }
}
