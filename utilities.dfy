/**
  The text utilities of the monitor: `splitline`, the tokeniser; `get_job_ids`, which
  turns an `sjobs` listing into a map from job id to "running normally"; and
  `get_job_id`, which reads the job id that `sbatch` echoes. `exec` and `kill_job`
  run external commands and are modelled by the scripted world of module Cluster.
*/
module Utilities {
  import opened Wrappers
  import opened Extraction

  // ---------------------------------------------------------------------------
  // splitline

  predicate OccursAt(s: string, sep: string, i: nat) {
    i + |sep| <= |s| && s[i..i + |sep|] == sep
  }

  ghost predicate Contains(s: string, sep: string) {
    exists i: nat | i <= |s| :: OccursAt(s, sep, i)
  }

  /** `s.find(sep, from)`: the leftmost occurrence of `sep` starting at or after `from` (see FindSpec). */
  function Find(s: string, sep: string, from: nat): (r: Option<nat>)
    requires from <= |s|
    ensures r.Some? ==> from <= r.value && OccursAt(s, sep, r.value)
    decreases |s| - from
  {
    if OccursAt(s, sep, from) then Some(from)
    else if from == |s| then None
    else Find(s, sep, from + 1)
  }

  lemma {:induction false} FindSpec(s: string, sep: string, from: nat)
    requires from <= |s|
    ensures var r := Find(s, sep, from);
            (r.Some? ==> forall j | from <= j < r.value :: !OccursAt(s, sep, j)) &&
            (r.None? ==> forall j | from <= j :: !OccursAt(s, sep, j))
    decreases |s| - from
  {
    if !OccursAt(s, sep, from) && from < |s| {
      FindSpec(s, sep, from + 1);
    }
  }

  /** The pieces `splitline` produces from position `cur` on. */
  function SplitFrom(s: string, sep: string, cur: nat): seq<string>
    requires 0 < |sep| && cur <= |s|
    decreases |s| - cur
  {
    match Find(s, sep, cur)
    case None => [s[cur..]]
    case Some(loc) => [s[cur..loc]] + SplitFrom(s, sep, loc + |sep|)
  }

  function Split(s: string, sep: string): seq<string>
    requires 0 < |sep|
  {
    SplitFrom(s, sep, 0)
  }

  /** The pieces glued back together with `sep` between consecutive ones. */
  function Join(pieces: seq<string>, sep: string): string
    decreases |pieces|
  {
    if |pieces| == 0 then ""
    else if |pieces| == 1 then pieces[0]
    else pieces[0] + sep + Join(pieces[1..], sep)
  }

  /**
    `splitline(s, &vec, sep)`: `vec` is cleared, then each piece up to the next
    occurrence of `sep` is appended; the remainder after the last occurrence is the
    last piece. An empty `sep` would never advance `cur`, so it is excluded.
  */
  method SplitLine(s: string, sep: string) returns (vec: seq<string>)
    requires 0 < |sep|
    ensures vec == Split(s, sep)
  {
    vec := [];
    var cur := 0;
    while true
      invariant cur <= |s|
      invariant vec + SplitFrom(s, sep, cur) == Split(s, sep)
      decreases |s| - cur
    {
      var loc := Find(s, sep, cur);
      SplitFromStep(s, sep, cur, vec);
      if loc.None? {
        vec := vec + [s[cur..]];
        break;
      }
      vec, cur := vec + [s[cur..loc.value]], loc.value + |sep|;
    }
  }

  /**
    One turn of the `splitline` loop keeps "the pieces so far, then the pieces of the
    rest, are the whole split": with no further occurrence the rest is the last piece,
    otherwise the piece before the occurrence moves to the pieces so far.
  */
  lemma SplitFromStep(s: string, sep: string, cur: nat, vec: seq<string>)
    requires 0 < |sep| && cur <= |s| && vec + SplitFrom(s, sep, cur) == Split(s, sep)
    ensures Find(s, sep, cur).None? ==> vec + [s[cur..]] == Split(s, sep)
    ensures Find(s, sep, cur).Some? ==>
              var loc := Find(s, sep, cur).value;
              loc + |sep| <= |s| && (vec + [s[cur..loc]]) + SplitFrom(s, sep, loc + |sep|) == Split(s, sep)
  {
    if Find(s, sep, cur).Some? {
      var loc := Find(s, sep, cur).value;
      var rest := SplitFrom(s, sep, loc + |sep|);
      assert SplitFrom(s, sep, cur) == [s[cur..loc]] + rest;
      assert vec + ([s[cur..loc]] + rest) == (vec + [s[cur..loc]]) + rest;
    }
  }

  /** The pieces are never empty as a list, and joining them with `sep` gives back `s`. */
  lemma {:induction false} SplitFromJoin(s: string, sep: string, cur: nat)
    requires 0 < |sep| && cur <= |s|
    ensures 0 < |SplitFrom(s, sep, cur)|
    ensures Join(SplitFrom(s, sep, cur), sep) == s[cur..]
    decreases |s| - cur
  {
    match Find(s, sep, cur)
    case None =>
    case Some(loc) =>
      var rest := SplitFrom(s, sep, loc + |sep|);
      SplitFromJoin(s, sep, loc + |sep|);
      var pieces := SplitFrom(s, sep, cur);
      assert pieces[1..] == rest;
      calc {
        Join(pieces, sep);
        s[cur..loc] + sep + Join(rest, sep);
        s[cur..loc] + s[loc..loc + |sep|] + s[loc + |sep|..];
        s[cur..];
      }
  }

  /** No piece contains the separator: each piece ends at the leftmost occurrence. */
  lemma {:induction false} SplitFromPieces(s: string, sep: string, cur: nat)
    requires 0 < |sep| && cur <= |s|
    ensures forall k | 0 <= k < |SplitFrom(s, sep, cur)| :: !Contains(SplitFrom(s, sep, cur)[k], sep)
    decreases |s| - cur
  {
    var pieces := SplitFrom(s, sep, cur);
    var end := match Find(s, sep, cur) case None => |s| case Some(loc) => loc;
    FindSpec(s, sep, cur);
    var piece := s[cur..end];
    assert pieces[0] == piece;
    forall i: nat | i <= |piece|
      ensures !OccursAt(piece, sep, i)
    {
      if i + |sep| <= |piece| {
        SliceOfSlice(s, cur, end, i, |sep|);
        assert !OccursAt(s, sep, cur + i);
      }
    }
    match Find(s, sep, cur)
    case None =>
    case Some(loc) =>
      SplitFromPieces(s, sep, loc + |sep|);
      assert pieces[1..] == SplitFrom(s, sep, loc + |sep|);
  }

  /** A slice of a slice is the slice of the whole at the shifted bounds. */
  lemma SliceOfSlice(s: string, lo: nat, hi: nat, i: nat, n: nat)
    requires lo <= hi <= |s| && i + n <= hi - lo
    ensures s[lo..hi][i..i + n] == s[lo + i..lo + i + n]
  {
    var whole, inner := s[lo..hi], s[lo..hi][i..i + n];
    var direct := s[lo + i..lo + i + n];
    forall m | 0 <= m < n ensures inner[m] == direct[m] {
      assert inner[m] == whole[i + m] == s[lo + i + m];
    }
  }

  lemma SplitProperties(s: string, sep: string)
    requires 0 < |sep|
    ensures 0 < |Split(s, sep)|
    ensures Join(Split(s, sep), sep) == s
    ensures forall k | 0 <= k < |Split(s, sep)| :: !Contains(Split(s, sep)[k], sep)
  {
    SplitFromJoin(s, sep, 0);
    SplitFromPieces(s, sep, 0);
  }

  /** A text without the separator is a single piece. */
  lemma SplitWithoutSeparator(s: string, sep: string)
    requires 0 < |sep| && !Contains(s, sep)
    ensures Split(s, sep) == [s]
  {
    FindSpec(s, sep, 0);
    assert Find(s, sep, 0).None?;
  }

  // ---------------------------------------------------------------------------
  // get_job_ids

  datatype ListingError = BadLine(line: string)

  /**
    One data line of an `sjobs` listing, read as
    `strm >> catcher >> jobid >> catcher >> catcher >> jobstat`: the job id and the
    status, or None when any of the five extractions fails.
  */
  function ParseLine(line: string): (r: Option<(uint32, string)>)
    ensures AllSpace(line) ==> r.None?
    ensures r.Some? ==> 0 < |r.value.1| && NoSpace(r.value.1)
  {
    ReadWordSpec(line, 0);
    assert line[0..] == line;
    ReadFields(line, 0, 0, 0)
  }

  /**
    The extractions of a data line from field `field` on, at position `pos`:
    fields 0, 2 and 3 are words that are dropped, field 1 is the unsigned job id
    (`id` holds it once read), field 4 is the status word.
  */
  function ReadFields(line: string, pos: nat, field: nat, id: uint32): (r: Option<(uint32, string)>)
    requires pos <= |line| && field <= 4
    ensures r.Some? && field >= 2 ==> r.value.0 == id
    ensures r.Some? ==> 0 < |r.value.1| <= |line| - pos && NoSpace(r.value.1)
    decreases 4 - field
  {
    WordHasNoSpace(line, pos);
    if field == 1 then
      var number :- ReadUnsigned(line, pos);
      ReadFields(line, number.1, 2, number.0)
    else
      var word :- ReadWord(line, pos);
      if field == 4 then Some((id, word.0)) else ReadFields(line, word.1, field + 1, id)
  }

  /** Some line of `lines` is recorded for job `id`. */
  ghost predicate Listed(lines: seq<string>, id: uint32) {
    exists k | 0 <= k < |lines| :: Lists(lines[k], id)
  }

  /** A line that `get_job_ids` records for job `id` (empty lines are skipped). */
  predicate Lists(line: string, id: uint32) {
    line != "" && ParseLine(line).Some? && ParseLine(line).value.0 == id
  }

  /** The health flag a listed line records: anything but status "E" is healthy. */
  function Healthy(line: string): bool
    requires ParseLine(line).Some?
  {
    ParseLine(line).value.1 != "E"
  }

  /** The data lines folded into `acc`, in order, later lines overwriting earlier ones. */
  function Collect(lines: seq<string>, acc: map<uint32, bool>): (r: Result<map<uint32, bool>, ListingError>)
    ensures r.Failure? ==> r.error.line in lines && Rejected(r.error.line)
    decreases |lines|, 1
  {
    if lines == [] then Success(acc) else CollectLine(lines, acc)
  }

  function CollectLine(lines: seq<string>, acc: map<uint32, bool>): (r: Result<map<uint32, bool>, ListingError>)
    requires lines != []
    ensures r.Failure? ==> r.error.line in lines && Rejected(r.error.line)
    decreases |lines|, 0
  {
    if lines[0] == "" then Collect(lines[1..], acc)
    else match ParseLine(lines[0])
      case None => Failure(BadLine(lines[0]))
      case Some((id, status)) => Collect(lines[1..], acc[id := status != "E"])
  }

  /** The data lines of a listing: every line but the first, which is a header. */
  function DataLines(sjobs: string): seq<string>
  {
    SplitProperties(sjobs, "\n");
    Split(sjobs, "\n")[1..]
  }

  /** A refused listing names one of its non-empty data lines that does not parse. */
  function JobIds(sjobs: string): (r: Result<map<uint32, bool>, ListingError>)
    ensures r.Failure? ==> r.error.line in DataLines(sjobs) && Rejected(r.error.line)
  {
    Collect(DataLines(sjobs), map[])
  }

  /**
    `get_job_ids(sjobs, &target)`: the target is cleared, the listing is split into
    lines, the header line is dropped, and each non-empty line is parsed and stored.
  */
  method GetJobIds(sjobs: string) returns (r: Result<map<uint32, bool>, ListingError>)
    ensures r == JobIds(sjobs)
  {
    var target: map<uint32, bool> := map[];
    var lines := SplitLine(sjobs, "\n");
    SplitProperties(sjobs, "\n");
    var i := 1;
    while i < |lines|
      invariant 1 <= i <= |lines|
      invariant Collect(lines[i..], target) == JobIds(sjobs)
    {
      assert lines[i..][1..] == lines[i + 1..];
      if lines[i] != "" {
        var parsed := ParseLine(lines[i]);
        if parsed.None? {
          return Failure(BadLine(lines[i]));
        }
        var (id, status) := parsed.value;
        target := target[id := status != "E"];
      }
      i := i + 1;
    }
    return Success(target);
  }

  /** A data line `get_job_ids` refuses: not empty, and not five fields with a numeric id. */
  predicate Rejected(line: string) {
    line != "" && ParseLine(line).None?
  }

  /** The position of the first refused line, if any. */
  function FirstRejected(lines: seq<string>): (r: Option<nat>)
    ensures r.Some? ==> r.value < |lines| && Rejected(lines[r.value])
    ensures r.Some? ==> forall k | 0 <= k < r.value :: !Rejected(lines[k])
    ensures r.None? ==> forall k | 0 <= k < |lines| :: !Rejected(lines[k])
    decreases |lines|
  {
    if lines == [] then None
    else if Rejected(lines[0]) then Some(0)
    else
      var rest := FirstRejected(lines[1..]);
      var clean := if rest.None? then |lines| - 1 else rest.value;
      AcceptedAfterHead(lines, clean);
      if rest.None? then None
      else
        assert lines[1..][rest.value] == lines[rest.value + 1];
        Some(rest.value + 1)
  }

  /** No refused line among the first `n` after an accepted head: none among the first `n + 1`. */
  lemma AcceptedAfterHead(lines: seq<string>, n: nat)
    requires n < |lines| && !Rejected(lines[0])
    requires forall k | 0 <= k < n :: !Rejected(lines[1..][k])
    ensures forall k | 0 <= k < n + 1 :: !Rejected(lines[k])
  {
    forall k | 0 < k < n + 1
      ensures !Rejected(lines[k])
    {
      assert lines[k] == lines[1..][k - 1];
    }
  }

  /** The listing is refused iff some data line is, and the first such line is the one named. */
  lemma {:induction false} CollectFails(lines: seq<string>, acc: map<uint32, bool>)
    ensures Collect(lines, acc).Failure? <==> FirstRejected(lines).Some?
    ensures Collect(lines, acc).Failure? ==> Collect(lines, acc).error == BadLine(lines[FirstRejected(lines).value])
    decreases |lines|
  {
    if lines != [] {
      assert Collect(lines, acc) == CollectLine(lines, acc);
      if !Rejected(lines[0]) {
        var acc' := if lines[0] == "" then acc
                    else acc[ParseLine(lines[0]).value.0 := ParseLine(lines[0]).value.1 != "E"];
        assert Collect(lines, acc) == Collect(lines[1..], acc');
        CollectFails(lines[1..], acc');
      }
    }
  }

  lemma ListedCons(lines: seq<string>)
    requires lines != []
    ensures forall id: uint32 :: Listed(lines, id) <==> Lists(lines[0], id) || Listed(lines[1..], id)
  {
    forall id: uint32 | Listed(lines, id) ensures Lists(lines[0], id) || Listed(lines[1..], id) {
      var k :| 0 <= k < |lines| && Lists(lines[k], id);
      if k > 0 { assert lines[1..][k - 1] == lines[k]; }
    }
    forall id: uint32 | Listed(lines[1..], id) ensures Listed(lines, id) {
      var k :| 0 <= k < |lines[1..]| && Lists(lines[1..][k], id);
      assert lines[k + 1] == lines[1..][k];
    }
  }

  /** The keys of an accepted listing: those of the accumulator and the ids of the data lines. */
  lemma {:induction false} CollectKeys(lines: seq<string>, acc: map<uint32, bool>, m: map<uint32, bool>)
    requires Collect(lines, acc) == Success(m)
    ensures forall id: uint32 :: id in m <==> id in acc || Listed(lines, id)
    decreases |lines|
  {
    if lines != [] {
      ListedCons(lines);
      if lines[0] == "" {
        CollectKeys(lines[1..], acc, m);
      } else {
        var parsed := ParseLine(lines[0]).value;
        CollectKeys(lines[1..], acc[parsed.0 := parsed.1 != "E"], m);
        assert forall id: uint32 :: Lists(lines[0], id) <==> id == parsed.0;
      }
    }
  }

  /** Each listed id carries the health flag of the LAST data line that lists it. */
  lemma {:induction false} CollectLastWins(lines: seq<string>, acc: map<uint32, bool>, m: map<uint32, bool>, id: uint32, k: nat)
    requires Collect(lines, acc) == Success(m)
    requires k < |lines| && Lists(lines[k], id)
    requires forall k' | k < k' < |lines| :: !Lists(lines[k'], id)
    ensures id in m && m[id] == Healthy(lines[k])
    decreases |lines|
  {
    if k == 0 {
      HeadLastWins(lines, acc, m, id);
    } else {
      var tail := lines[1..];
      UnlistedInTail(lines, id, k - 1);
      var acc' := CollectTail(lines, acc, m);
      assert tail[k - 1] == lines[k];
      CollectLastWins(tail, acc', m, id, k - 1);
    }
  }

  /** The first line lists `id` and no later line does: the result carries the first line's flag. */
  lemma HeadLastWins(lines: seq<string>, acc: map<uint32, bool>, m: map<uint32, bool>, id: uint32)
    requires Collect(lines, acc) == Success(m)
    requires 0 < |lines| && Lists(lines[0], id)
    requires forall k' | 0 < k' < |lines| :: !Lists(lines[k'], id)
    ensures id in m && m[id] == Healthy(lines[0])
  {
    UnlistedInTail(lines, id, 0);
    var acc' := CollectTail(lines, acc, m);
    CollectUntouched(lines[1..], acc', m, id);
  }

  /** No line after position `j + 1` lists `id`: no line of the tail after position `j` does. */
  lemma UnlistedInTail(lines: seq<string>, id: uint32, j: nat)
    requires j < |lines| && forall k' | j + 1 < k' < |lines| :: !Lists(lines[k'], id)
    ensures forall k' | j < k' < |lines| - 1 :: !Lists(lines[1..][k'], id)
  {
    forall k' | j < k' < |lines| - 1
      ensures !Lists(lines[1..][k'], id)
    {
      assert lines[1..][k'] == lines[k' + 1];
    }
  }

  /** A successful fold goes on from the second line with the first line's entry recorded. */
  lemma CollectTail(lines: seq<string>, acc: map<uint32, bool>, m: map<uint32, bool>) returns (acc': map<uint32, bool>)
    requires lines != [] && Collect(lines, acc) == Success(m)
    ensures lines[0] == "" ==> acc' == acc
    ensures lines[0] != "" ==> ParseLine(lines[0]).Some?
    ensures lines[0] != "" ==> acc' == acc[ParseLine(lines[0]).value.0 := ParseLine(lines[0]).value.1 != "E"]
    ensures Collect(lines[1..], acc') == Success(m)
  {
    assert Collect(lines, acc) == CollectLine(lines, acc);
    acc' := if lines[0] == "" then acc
            else acc[ParseLine(lines[0]).value.0 := ParseLine(lines[0]).value.1 != "E"];
  }

  /** An id that no data line lists keeps the value it had in the accumulator. */
  lemma {:induction false} CollectUntouched(lines: seq<string>, acc: map<uint32, bool>, m: map<uint32, bool>, id: uint32)
    requires Collect(lines, acc) == Success(m)
    requires id in acc && forall k | 0 <= k < |lines| :: !Lists(lines[k], id)
    ensures id in m && m[id] == acc[id]
    decreases |lines|
  {
    if lines != [] {
      var tail := lines[1..];
      forall k | 0 <= k < |tail| ensures !Lists(tail[k], id) {
        assert tail[k] == lines[k + 1];
      }
      assert !Lists(lines[0], id);
      if lines[0] == "" {
        CollectUntouched(tail, acc, m, id);
      } else {
        var parsed := ParseLine(lines[0]).value;
        CollectUntouched(tail, acc[parsed.0 := parsed.1 != "E"], m, id);
      }
    }
  }

  /**
    `get_job_ids` on an accepted listing: its keys are the ids of the data lines and
    each value is false exactly when the last line for that id has status "E".
  */
  lemma JobIdsContents(sjobs: string, m: map<uint32, bool>)
    requires JobIds(sjobs) == Success(m)
    ensures var lines := DataLines(sjobs);
            forall id: uint32 :: id in m <==> Listed(lines, id)
    ensures var lines := DataLines(sjobs);
            forall id: uint32, k | 0 <= k < |lines| && Lists(lines[k], id) ::
              (forall k' | k < k' < |lines| :: !Lists(lines[k'], id)) ==>
                (m[id] <==> ParseLine(lines[k]).value.1 != "E")
  {
    var lines := DataLines(sjobs);
    CollectKeys(lines, map[], m);
    forall id: uint32, k | 0 <= k < |lines| && Lists(lines[k], id) && (forall k' | k < k' < |lines| :: !Lists(lines[k'], id))
      ensures m[id] <==> ParseLine(lines[k]).value.1 != "E"
    {
      CollectLastWins(lines, map[], m, id, k);
    }
  }

  /** A listing that is only a header (no newline at all), the empty text included, yields no jobs. */
  lemma HeaderOnlyListing(sjobs: string)
    requires !Contains(sjobs, "\n")
    ensures JobIds(sjobs) == Success(map[])
  {
    SplitWithoutSeparator(sjobs, "\n");
  }

  /** A line with fewer than two words is rejected. */
  lemma ParseLineFewWords(line: string)
    requires |Words(line, 0)| < 2
    ensures ParseLine(line).None?
  {
    if ReadWord(line, 0).Some? {
      var (_, i1) := ReadWord(line, 0).value;
      assert Words(line, i1) == [];
      UnsignedOfOtherWord(line, i1);
      assert ParseLine(line) == ReadFields(line, i1, 1, 0);
    }
  }

  /** A line whose second word does not start with a digit is rejected. */
  lemma ParseLineNonNumericId(line: string)
    requires |Words(line, 0)| >= 2 && !IsDigit(Words(line, 0)[1][0])
    ensures ParseLine(line).None?
  {
    var (_, i1) := ReadWord(line, 0).value;
    assert Words(line, 0)[1] == ReadWord(line, i1).value.0;
    UnsignedOfOtherWord(line, i1);
    assert ParseLine(line) == ReadFields(line, i1, 1, 0);
  }

  /**
    A line whose second word is a run of digits parses iff it has at least five
    words and the id fits in 32 bits; the id is that number and the status the
    fifth word, whatever follows it.
  */
  lemma ParseLineNumericId(line: string)
    requires |Words(line, 0)| >= 2 && AllDigits(Words(line, 0)[1])
    ensures var w := Words(line, 0);
            ParseLine(line) == if |w| >= 5 && Value(w[1]) <= UINT32_MAX then Some((Value(w[1]), w[4])) else None
  {
    var w := Words(line, 0);
    var (_, i1) := ReadWord(line, 0).value;
    assert ParseLine(line) == ReadFields(line, i1, 1, 0);
    assert w[1..] == Words(line, i1);
    UnsignedOfDigitWord(line, i1);
    var (_, i2) := ReadWord(line, i1).value;
    if Value(w[1]) <= UINT32_MAX {
      assert ReadUnsigned(line, i1) == Some((Value(w[1]), i2));
      assert ReadFields(line, i1, 1, 0) == ReadFields(line, i2, 2, Value(w[1]));
      assert w[2..] == Words(line, i2);
      FieldsAfterId(line, i2, 2, Value(w[1]));
    }
  }

  /**
    A line whose second word starts with digits but goes on with other characters:
    the id is the value of the leading digits, the rest of that word fills the third
    field, so the status is the fourth word, not the fifth.
  */
  lemma ParseLineMixedId(line: string)
    requires |Words(line, 0)| >= 2
    requires IsDigit(Words(line, 0)[1][0]) && !AllDigits(Words(line, 0)[1])
    ensures var ws := Words(line, 0);
            var d := ws[1][..DigitsEnd(ws[1], 0)];
            ParseLine(line) == if |ws| >= 4 && Value(d) <= UINT32_MAX then Some((Value(d), ws[3])) else None
  {
    SecondWord(line);
    var i1 := ReadWord(line, 0).value.1;
    var w, i2 := ReadWord(line, i1).value.0, ReadWord(line, i1).value.1;
    FieldsOfMixedId(line, i1, w, i2);
    var v := Value(w[..DigitsEnd(w, 0)]);
    if v <= UINT32_MAX {
      FieldsAfterId(line, i2, 3, v);
    }
  }

  /** Where the second word of a line is read, and what parsing the line comes down to once the first is skipped. */
  lemma SecondWord(line: string)
    requires |Words(line, 0)| >= 2
    ensures var i1 := ReadWord(line, 0).value.1;
            i1 <= |line| && ReadWord(line, i1).Some? &&
            ParseLine(line) == ReadFields(line, i1, 1, 0) &&
            Words(line, 0)[1] == ReadWord(line, i1).value.0 &&
            Words(line, 0)[2..] == Words(line, ReadWord(line, i1).value.1)
  {
    var ws := Words(line, 0);
    var i1 := ReadWord(line, 0).value.1;
    assert ws[1..] == Words(line, i1);
  }

  /** The id field is a word that opens with digits: the id is their value and the rest of the word is field 2. */
  lemma FieldsOfMixedId(line: string, pos: nat, w: string, next: nat)
    requires pos <= |line| && ReadWord(line, pos) == Some((w, next))
    requires IsDigit(w[0]) && !AllDigits(w)
    ensures var v := Value(w[..DigitsEnd(w, 0)]);
            ReadFields(line, pos, 1, 0) == if v <= UINT32_MAX then ReadFields(line, next, 3, v) else None
  {
    UnsignedOfMixedWord(line, pos, w, next);
    var d := DigitsEnd(w, 0);
    RestOfMixedWord(line, pos, w, next, d);
    var v := Value(w[..d]);
    if v <= UINT32_MAX {
      IdThenWord(line, pos, v, SkipSpace(line, pos) + d, w[d..], next);
    } else {
      NoIdField(line, pos);
    }
  }

  /** An id field that does not read as an unsigned rejects the line. */
  lemma NoIdField(line: string, pos: nat)
    requires pos <= |line| && ReadUnsigned(line, pos).None?
    ensures ReadFields(line, pos, 1, 0) == None
  {
  }

  /** The id read as an unsigned, then a word: the status is read two fields on. */
  lemma IdThenWord(line: string, pos: nat, id: uint32, after: nat, word: string, next: nat)
    requires pos <= |line| && ReadUnsigned(line, pos) == Some((id, after))
    requires after <= |line| && ReadWord(line, after) == Some((word, next))
    ensures ReadFields(line, pos, 1, 0) == ReadFields(line, next, 3, id)
  {
    IdField(line, pos, id, after);
    WordField(line, after, 2, id, word, next);
  }

  /** Reading the id field, unfolded: when an unsigned is read, the fields go on after it. */
  lemma IdField(line: string, pos: nat, id: uint32, next: nat)
    requires pos <= |line| && ReadUnsigned(line, pos) == Some((id, next))
    ensures ReadFields(line, pos, 1, 0) == ReadFields(line, next, 2, id)
  {
  }

  /** Reading a word field other than the status, unfolded. */
  lemma WordField(line: string, pos: nat, field: nat, id: uint32, word: string, next: nat)
    requires pos <= |line| && field < 4 && field != 1 && ReadWord(line, pos) == Some((word, next))
    ensures ReadFields(line, pos, field, id) == ReadFields(line, next, field + 1, id)
  {
  }

  /** From field 2 on only words are read: the status is the word in field 4, if there are enough. */
  lemma {:induction false} FieldsAfterId(line: string, pos: nat, field: nat, id: uint32)
    requires pos <= |line| && 2 <= field <= 4
    ensures var rest := Words(line, pos);
            ReadFields(line, pos, field, id) == if |rest| > 4 - field then Some((id, rest[4 - field])) else None
    decreases 4 - field
  {
    if ReadWord(line, pos).Some? {
      var (_, next) := ReadWord(line, pos).value;
      assert Words(line, pos)[1..] == Words(line, next);
      if field < 4 {
        FieldsAfterId(line, next, field + 1, id);
      }
    }
  }


  // ---------------------------------------------------------------------------
  // get_job_id

  /** `get_job_id(echo_output)`: the unsigned number at the start of the output (after white space). */
  function GetJobId(output: string): (r: Option<uint32>)
    ensures var j := SkipSpace(output, 0);
            (r.None? <==> j == |output| || !IsDigit(output[j]) || Value(output[j..DigitsEnd(output, j)]) > UINT32_MAX) &&
            (r.Some? ==> r.value == Value(output[j..DigitsEnd(output, j)]))
  {
    ReadUnsignedSpec(output, 0);
    var parsed :- ReadUnsigned(output, 0);
    Some(parsed.0)
  }

  /** Round trip: white space, the decimal id, then anything not continuing the number. */
  lemma GetJobIdOfDecimal(spaces: string, id: uint32, rest: string)
    requires AllSpace(spaces)
    requires rest == [] || !IsDigit(rest[0])
    ensures GetJobId(spaces + Decimal(id) + rest) == Some(id)
  {
    var d := Decimal(id);
    var s := spaces + d + rest;
    var j := |spaces|;
    assert s == spaces + (d + rest) && s[j] == d[0];
    SkipSpaceOver(spaces, d + rest);
    DigitsEndOver(spaces, d, rest);
    assert s[j..j + |d|] == d;
    ValueOfDecimal(id);
  }

  /** Output that does not begin (after white space) with a digit is rejected. */
  lemma GetJobIdRejects(spaces: string, rest: string)
    requires AllSpace(spaces)
    requires rest == [] || (!IsSpace(rest[0]) && !IsDigit(rest[0]))
    ensures GetJobId(spaces + rest).None?
  {
    SkipSpaceOver(spaces, rest);
    assert |spaces| < |spaces + rest| ==> (spaces + rest)[|spaces|] == rest[0];
  }
}
