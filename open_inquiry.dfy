/**
 * The registry of open inquiries kept between statistics runs: a map from
 * thread id to (id, subject), the update that retires closed threads and
 * merges newly open ones, and the text format it is stored in (two lines
 * per inquiry, the id and then the subject).
 */
module OpenInquiries {
  import opened Text

  /** An open thread in the support inbox. */
  datatype OpenInquiry = OpenInquiry(id: string, subject: string)

  /**
   * `__eq__`: two inquiries are the same inquiry when their thread ids agree;
   * the subject plays no part. This, not the datatype's built-in `==` (which
   * also compares subjects), is the model of Python's `==` on inquiries.
   */
  predicate SameInquiry(a: OpenInquiry, b: OpenInquiry) {
    a.id == b.id
  }

  /** `__hash__` hashes the id, so the id is the value the hash is computed from. */
  function HashKey(a: OpenInquiry): string {
    a.id
  }

  /** Equal inquiries hash alike, and inquiries with the same hash key are equal. */
  lemma HashAgreesWithEquality(a: OpenInquiry, b: OpenInquiry)
    ensures SameInquiry(a, b) <==> HashKey(a) == HashKey(b)
    ensures SameInquiry(a, a)
    ensures SameInquiry(a, b) ==> SameInquiry(b, a)
  { }

  // ---------------------------------------------------------------------------
  // update

  /** Registry keys whose thread is still in the inbox. */
  function StillOpen(open: map<string, OpenInquiry>, inbox: set<string>): set<string> {
    set k | k in open && open[k].id in inbox
  }

  /** Registry keys whose thread has left the inbox. */
  function Closed(open: map<string, OpenInquiry>, inbox: set<string>): set<string> {
    set k | k in open && open[k].id !in inbox
  }

  /** The registry after the closed entries are deleted. */
  function Kept(open: map<string, OpenInquiry>, inbox: set<string>): map<string, OpenInquiry> {
    map k | k in StillOpen(open, inbox) :: open[k]
  }

  /** Every entry is either still open or closed, never both, so the two counts add up to the registry's size. */
  lemma CountsPartition(open: map<string, OpenInquiry>, inbox: set<string>)
    ensures StillOpen(open, inbox) + Closed(open, inbox) == open.Keys
    ensures StillOpen(open, inbox) * Closed(open, inbox) == {}
    ensures |StillOpen(open, inbox)| + |Closed(open, inbox)| == |open|
  {
    var a, b := StillOpen(open, inbox), Closed(open, inbox);
    assert a + b == open.Keys;
    assert a * b == {};
    assert |a + b| + |a * b| == |a| + |b|;
  }

  /** After the merge the keys are the kept ones and the new ones, a new entry wins, and every other entry is an old one still in the inbox. */
  lemma MergedEntries(open: map<string, OpenInquiry>, newOpen: map<string, OpenInquiry>, inbox: set<string>)
    ensures (Kept(open, inbox) + newOpen).Keys == StillOpen(open, inbox) + newOpen.Keys
    ensures forall k :: k in newOpen ==> (Kept(open, inbox) + newOpen)[k] == newOpen[k]
    ensures forall k :: k in Kept(open, inbox) + newOpen && k !in newOpen ==>
              k in open && open[k].id in inbox && (Kept(open, inbox) + newOpen)[k] == open[k]
  {
    var r := Kept(open, inbox) + newOpen;
    assert r.Keys == StillOpen(open, inbox) + newOpen.Keys by {
      forall k ensures k in r <==> k in StillOpen(open, inbox) || k in newOpen {
        if k in StillOpen(open, inbox) { assert k in Kept(open, inbox); }
      }
    }
  }

  /**
   * `update`: count the entries still in the inbox and those that left it,
   * delete the latter, then merge the new entries over what remains. The
   * source mutates the dictionary it is given and also returns it.
   */
  method Update(open: map<string, OpenInquiry>, newOpen: map<string, OpenInquiry>, inbox: set<string>)
    returns (numOpen: nat, numClosed: nat, result: map<string, OpenInquiry>)
    ensures numOpen == |StillOpen(open, inbox)| && numClosed == |Closed(open, inbox)|
    ensures numOpen + numClosed == |open|
    ensures result == Kept(open, inbox) + newOpen
    ensures result.Keys == StillOpen(open, inbox) + newOpen.Keys
    ensures forall k :: k in newOpen ==> result[k] == newOpen[k]
    ensures forall k :: k in result && k !in newOpen ==> k in open && open[k].id in inbox && result[k] == open[k]
  {
    var toDelete;
    numOpen, numClosed, toDelete := ClassifyEntries(open, inbox);
    CountsPartition(open, inbox);
    result := DeleteEntries(open, toDelete);
    assert result == Kept(open, inbox);
    result := result + newOpen;
    MergedEntries(open, newOpen, inbox);
  }

  /** The first loop of `update`: count the entries still in the inbox and collect the keys of those that left it. */
  method ClassifyEntries(open: map<string, OpenInquiry>, inbox: set<string>)
    returns (numOpen: nat, numClosed: nat, toDelete: seq<string>)
    ensures numOpen == |StillOpen(open, inbox)| && numClosed == |Closed(open, inbox)|
    ensures forall k :: k in toDelete <==> k in Closed(open, inbox)
  {
    numOpen, numClosed, toDelete := 0, 0, [];
    ghost var seenOpen, seenClosed: set<string> := {}, {};
    var rest := open.Keys;
    while rest != {}
      invariant rest <= open.Keys
      invariant forall k :: k in seenOpen <==> k in open && k !in rest && open[k].id in inbox
      invariant forall k :: k in seenClosed <==> k in open && k !in rest && open[k].id !in inbox
      invariant numOpen == |seenOpen| && numClosed == |seenClosed|
      invariant forall k :: k in toDelete <==> k in seenClosed
      decreases |rest|
    {
      var thread :| thread in rest;
      if open[thread].id in inbox {
        numOpen := numOpen + 1;
        seenOpen := seenOpen + {thread};
      } else {
        numClosed := numClosed + 1;
        seenClosed := seenClosed + {thread};
        toDelete := toDelete + [thread];
      }
      rest := rest - {thread};
    }
    assert seenOpen == StillOpen(open, inbox);
    assert seenClosed == Closed(open, inbox);
  }

  /** The second loop of `update`: delete every collected key. */
  method DeleteEntries(open: map<string, OpenInquiry>, toDelete: seq<string>) returns (result: map<string, OpenInquiry>)
    ensures forall k :: k in result <==> k in open && k !in toDelete
    ensures forall k :: k in result ==> result[k] == open[k]
  {
    result := open;
    for i := 0 to |toDelete|
      invariant forall k :: k in result <==> k in open && k !in toDelete[..i]
      invariant forall k :: k in result ==> result[k] == open[k]
    {
      result := result - {toDelete[i]};
    }
    assert toDelete[..|toDelete|] == toDelete;
  }

  // ---------------------------------------------------------------------------
  // The stored text format

  /** The lines `write_to_file` writes for the given inquiries: the id and then the subject, each ended by a newline. */
  function Lines(qs: seq<OpenInquiry>): (lines: seq<string>)
    ensures |lines| == 2 * |qs|
  {
    if qs == [] then [] else [qs[0].id + "\n", qs[0].subject + "\n"] + Lines(qs[1..])
  }

  /** Inquiry `i` is written on lines `2 * i` and `2 * i + 1`. */
  lemma {:induction false} LinesAt(qs: seq<OpenInquiry>, i: nat)
    requires i < |qs|
    ensures Lines(qs)[2 * i] == qs[i].id + "\n" && Lines(qs)[2 * i + 1] == qs[i].subject + "\n"
  {
    if i > 0 {
      LinesAt(qs[1..], i - 1);
    }
  }

  /** The file text `write_to_file` produces. */
  function Render(qs: seq<OpenInquiry>): string {
    if qs == [] then "" else qs[0].id + "\n" + qs[0].subject + "\n" + Render(qs[1..])
  }

  /** Python's `readlines`: the text cut after every newline, a last fragment without one kept as a line. */
  function ReadLines(text: string): seq<string>
    decreases |text|
  {
    if text == [] then []
    else
      var i := Find(text, '\n');
      if i == -1 then [text] else [text[..i + 1]] + ReadLines(text[i + 1..])
  }

  /** A line without an inner newline is read back as one line. */
  lemma ReadLinesFirst(x: string, rest: string)
    requires '\n' !in x
    ensures ReadLines(x + "\n" + rest) == [x + "\n"] + ReadLines(rest)
  {
    var text := x + "\n" + rest;
    assert text[..|x|] == x;
    FindFirst(text, '\n', |x|);
    assert text[..|x| + 1] == x + "\n";
    assert text[|x| + 1..] == rest;
  }

  /** Inquiries that can be written: neither the id nor the subject holds a newline. */
  predicate Writable(qs: seq<OpenInquiry>) {
    forall i :: 0 <= i < |qs| ==> '\n' !in qs[i].id && '\n' !in qs[i].subject
  }

  /** One inquiry's two lines, read back in front of the rest of the text. */
  lemma ReadLinesPair(q: OpenInquiry, rest: string)
    requires '\n' !in q.id && '\n' !in q.subject
    ensures ReadLines(q.id + "\n" + q.subject + "\n" + rest) == [q.id + "\n", q.subject + "\n"] + ReadLines(rest)
  {
    ReadLinesFirst(q.subject, rest);
    assert q.id + "\n" + q.subject + "\n" + rest == q.id + "\n" + (q.subject + "\n" + rest);
    ReadLinesFirst(q.id, q.subject + "\n" + rest);
  }

  /** Reading back the rendered text gives exactly the written lines. */
  lemma {:induction false} ReadLinesOfRender(qs: seq<OpenInquiry>)
    requires Writable(qs)
    ensures ReadLines(Render(qs)) == Lines(qs)
  {
    if qs != [] {
      ReadLinesOfRender(qs[1..]);
      ReadLinesPair(qs[0], Render(qs[1..]));
    }
  }

  // ---------------------------------------------------------------------------
  // from_file

  /** The registry built from the first `n` (id, subject) line pairs; a later pair with the same id replaces an earlier one. */
  function DecodePairs(lines: seq<string>, n: nat): (r: map<string, OpenInquiry>)
    requires 2 * n <= |lines|
    ensures forall k :: k in r ==> r[k].id == k
  {
    if n == 0 then map[]
    else
      var id := Strip(lines[2 * n - 2]);
      DecodePairs(lines, n - 1)[id := OpenInquiry(id, Strip(lines[2 * n - 1]))]
  }

  /** The registry `from_file` builds from the lines of the file; an odd last line is ignored. */
  function Decode(lines: seq<string>): map<string, OpenInquiry> {
    DecodePairs(lines, |lines| / 2)
  }

  /** `from_file`'s loop: every second line starts a pair, stripped of surrounding whitespace. */
  method FromLines(lines: seq<string>) returns (threads: map<string, OpenInquiry>)
    ensures threads == Decode(lines)
  {
    threads := map[];
    var i, pairs := 0, 0;
    while i < |lines| - 1
      invariant i == 2 * pairs && i <= |lines|
      invariant threads == DecodePairs(lines, pairs)
      decreases |lines| - i
    {
      var threadId := Strip(lines[i]);
      var subject := Strip(lines[i + 1]);
      threads := threads[threadId := OpenInquiry(threadId, subject)];
      i, pairs := i + 2, pairs + 1;
    }
    assert pairs == |lines| / 2;
  }

  /** A trailing line without its partner does not change the registry. */
  lemma DecodeIgnoresOddLine(lines: seq<string>, x: string)
    requires |lines| % 2 == 0
    ensures Decode(lines + [x]) == Decode(lines)
  {
    var n := |lines| / 2;
    assert (|lines| + 1) / 2 == n;
    DecodePairsPrefix(lines + [x], lines, n);
  }

  /** Only the first `2 * n` lines matter to the first `n` pairs. */
  lemma {:induction false} DecodePairsPrefix(longer: seq<string>, lines: seq<string>, n: nat)
    requires 2 * n <= |lines| <= |longer| && lines == longer[..|lines|]
    ensures DecodePairs(longer, n) == DecodePairs(lines, n)
  {
    if n > 0 {
      DecodePairsPrefix(longer, lines, n - 1);
      assert longer[2 * n - 2] == lines[2 * n - 2] && longer[2 * n - 1] == lines[2 * n - 1];
    }
  }

  /** The registry the written inquiries stand for: keyed by id, a later inquiry with the same id replacing an earlier one. */
  function ToMap(qs: seq<OpenInquiry>): map<string, OpenInquiry> {
    if qs == [] then map[] else ToMap(qs[..|qs| - 1])[qs[|qs| - 1].id := qs[|qs| - 1]]
  }

  /** Inquiries whose id and subject survive the text format: no newline, and no whitespace at either end for `strip` to remove. */
  predicate RoundTrips(qs: seq<OpenInquiry>) {
    forall i :: 0 <= i < |qs| ==>
      '\n' !in qs[i].id && '\n' !in qs[i].subject && NoEdgeSpace(qs[i].id) && NoEdgeSpace(qs[i].subject)
  }

  /** Parsing the first `n` pairs of the written lines rebuilds the registry of the first `n` inquiries. */
  lemma {:induction false} DecodeLines(qs: seq<OpenInquiry>, n: nat)
    requires RoundTrips(qs) && n <= |qs|
    ensures DecodePairs(Lines(qs), n) == ToMap(qs[..n])
  {
    if n > 0 {
      DecodeLines(qs, n - 1);
      var q := qs[n - 1];
      LinesAt(qs, n - 1);
      StripLine(q.id);
      StripLine(q.subject);
      assert qs[..n][..n - 1] == qs[..n - 1];
    }
  }

  /** Writing the registry with `write_to_file` and reading it back with `from_file` gives the same registry. */
  lemma WriteThenRead(qs: seq<OpenInquiry>)
    requires RoundTrips(qs)
    ensures Decode(ReadLines(Render(qs))) == ToMap(qs)
  {
    ReadLinesOfRender(qs);
    var lines := Lines(qs);
    assert |lines| / 2 == |qs|;
    DecodeLines(qs, |qs|);
    assert qs[..|qs|] == qs;
    calc {
      Decode(ReadLines(Render(qs)));
      Decode(lines);
      DecodePairs(lines, |qs|);
      ToMap(qs[..|qs|]);
    }
  }
}
