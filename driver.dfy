/**
  One round of `run_password_generator`: the parameters read by the
  prompts, the batch of passwords, and the text the save step appends to
  the chosen file.
*/
module Driver {
  import opened Wrappers
  import opened CharClasses
  import opened Generator
  import opened Prompts

  /** The six answers of one round, named after the driver's variables. */
  datatype Request = Request(numPasswords: int, length: int,
                             useLower: bool, useUpper: bool, useDigits: bool, useSpecial: bool)

  // ---------------------------------------------------------------------
  // Reading the parameters
  // ---------------------------------------------------------------------

  /** The answers among a sequence of decisions, in order, skipping the lines asked again. */
  function Collect(decisions: seq<Option<bool>>): seq<bool> {
    if decisions == [] then []
    else (match decisions[0] case Some(b) => [b] case None => []) + Collect(decisions[1..])
  }

  /** The decision `get_yes_no` takes on each line. */
  function Decisions(lines: seq<string>): (ds: seq<Option<bool>>)
    ensures |ds| == |lines|
    ensures forall k :: 0 <= k < |lines| ==> ds[k] == Answer(lines[k])
  {
    seq(|lines|, k requires 0 <= k < |lines| => Answer(lines[k]))
  }

  lemma DecisionsSuffix(lines: seq<string>, n: nat)
    requires n <= |lines|
    ensures Decisions(lines[n..]) == Decisions(lines)[n..]
  {
  }

  /** The yes/no answers the lines give, in order. */
  function Answers(lines: seq<string>): seq<bool> {
    Collect(Decisions(lines))
  }

  /** Decisions that all ask again give no answer. */
  lemma {:induction false} CollectNone(ds: seq<Option<bool>>)
    requires forall k :: 0 <= k < |ds| ==> ds[k].None?
    ensures Collect(ds) == []
  {
    if ds != [] {
      CollectNone(ds[1..]);
    }
  }

  /** A prompt that accepts the decision at `used - 1` consumes the first answer. */
  lemma {:induction false} CollectAfter(ds: seq<Option<bool>>, used: nat, b: bool)
    requires 1 <= used <= |ds|
    requires forall k :: 0 <= k < used - 1 ==> ds[k].None?
    requires ds[used - 1] == Some(b)
    ensures Collect(ds) == [b] + Collect(ds[used..])
  {
    if used > 1 {
      CollectAfter(ds[1..], used - 1, b);
      assert ds[1..][used - 1..] == ds[used..];
    }
  }

  /** Lines that are all asked again give no answer. */
  lemma NoAnswer(lines: seq<string>)
    requires forall k :: 0 <= k < |lines| ==> Answer(lines[k]).None?
    ensures Answers(lines) == []
  {
    CollectNone(Decisions(lines));
  }

  /** A prompt that accepts line `used - 1` gives the first answer and leaves the lines after it. */
  lemma AnswerAt(lines: seq<string>, used: nat, b: bool)
    requires 1 <= used <= |lines|
    requires forall k :: 0 <= k < used - 1 ==> Answer(lines[k]).None?
    requires Answer(lines[used - 1]) == Some(b)
    ensures Answers(lines) == [b] + Answers(lines[used..])
  {
    CollectAfter(Decisions(lines), used, b);
    DecisionsSuffix(lines, used);
  }

  /**
    The four yes/no prompts of lines 62-65, each reading lines until it
    accepts one: the first four answers the lines give, or `None` when the
    lines run out first.
  */
  method ReadFlags(answerLines: seq<string>) returns (flags: Option<seq<bool>>)
    ensures flags.Some? <==> |Answers(answerLines)| >= 4
    ensures flags.Some? ==> flags.value == Answers(answerLines)[..4]
  {
    var lines := answerLines;
    var read: seq<bool> := [];
    while |read| < 4
      invariant |read| <= 4
      invariant Answers(answerLines) == read + Answers(lines)
    {
      var answer, n := GetYesNo(lines);
      if answer.None? {
        NoAnswer(lines);
        return None;
      }
      AnswerAt(lines, n, answer.value);
      ghost var rest := Answers(lines[n..]);
      assert read + ([answer.value] + rest) == (read + [answer.value]) + rest;
      read := read + [answer.value];
      lines := lines[n..];
    }
    assert Answers(answerLines)[..4] == read;
    return Some(read);
  }

  /**
    What the two number prompts of lines 60-61 read from one script of
    entries: the count is the first entry of at least 1, the length the
    first entry of at least 6 after it.  `None` when either is missing.
  */
  function Numbers(entries: seq<Option<int>>): (r: Option<(int, int)>)
    ensures r.Some? ==> r.value.0 >= 1 && r.value.1 >= 6
  {
    match FirstAccepted(entries, 1)
    case None => None
    case Some(i) =>
      match FirstAccepted(entries[i + 1..], 6)
      case None => None
      case Some(j) => Some((entries[i].value, entries[i + 1 + j].value))
  }

  /**
    Lines 60-61: `get_valid_number(..., min_value=1)` and then
    `get_valid_number(..., min_value=6)` on the entries that follow.
  */
  method ReadNumbers(numberEntries: seq<Option<int>>) returns (numbers: Option<(int, int)>)
    ensures numbers == Numbers(numberEntries)
    ensures numbers.Some? ==> numbers.value.0 >= 1 && numbers.value.1 >= 6
  {
    var num, used := GetValidNumber(numberEntries, 1);
    if num.None? { return None; }
    var length, used2 := GetValidNumber(numberEntries[used..], 6);
    if length.None? { return None; }
    assert numberEntries[used..][used2 - 1] == numberEntries[used + used2 - 1];
    return Some((num.value, length.value));
  }

  /**
    Lines 60-65: the two numbers, then lowercase, uppercase, digits and
    special characters, in that order.  `numberEntries` are the parsed
    entries of the number prompts, `answerLines` the lines typed at the
    four yes/no prompts; `None` exactly when either runs out first.
  */
  method ReadRequest(numberEntries: seq<Option<int>>, answerLines: seq<string>) returns (request: Option<Request>)
    ensures request.Some? <==> Numbers(numberEntries).Some? && |Answers(answerLines)| >= 4
    ensures request.Some? ==>
              (request.value.numPasswords, request.value.length) == Numbers(numberEntries).value
    ensures request.Some? ==> request.value.numPasswords >= 1 && request.value.length >= 6
    ensures request.Some? ==>
              (|Answers(answerLines)| >= 4 &&
               Answers(answerLines)[..4] == [request.value.useLower, request.value.useUpper,
                                             request.value.useDigits, request.value.useSpecial])
  {
    var numbers := ReadNumbers(numberEntries);
    if numbers.None? { return None; }
    var flags := ReadFlags(answerLines);
    if flags.None? { return None; }
    var f := flags.value;
    assert f == [f[0], f[1], f[2], f[3]];
    return Some(Request(numbers.value.0, numbers.value.1, f[0], f[1], f[2], f[3]));
  }

  // ---------------------------------------------------------------------
  // The batch
  // ---------------------------------------------------------------------

  /** The flags of a request, passed in `generate_password`'s parameter order. */
  function RequestAlphabet(req: Request): string {
    Alphabet(req.useDigits, req.useSpecial, req.useUpper, req.useLower)
  }

  /** One oracle per password, each fitting the request. */
  predicate BatchOracleFits(req: Request, oracle: seq<seq<nat>>) {
    |oracle| == Draws(req.numPasswords) &&
    forall k :: 0 <= k < |oracle| ==>
      (|RequestAlphabet(req)| > 0 ==> OracleFits(oracle[k], |RequestAlphabet(req)|, req.length))
  }

  /** The character belongs to a class whose prompt was answered yes. */
  predicate ChosenClass(req: Request, c: char) {
    (req.useLower && IsLower(c)) || (req.useUpper && IsUpper(c)) ||
    (req.useDigits && IsDigit(c)) || (req.useSpecial && IsPunct(c))
  }

  /**
    Line 68, as written: `num_passwords` calls with the same parameters,
    each with its own draws.  Every entry is `None` when no class was
    chosen; otherwise each is `length` characters, each of a class whose
    prompt was answered yes.
  */
  function Batch(req: Request, oracle: seq<seq<nat>>): (ps: seq<Option<string>>)
    requires BatchOracleFits(req, oracle)
    ensures |ps| == Draws(req.numPasswords)
    ensures forall k :: 0 <= k < |ps| ==>
              (ps[k].None? <==> !AnySelected(req.useDigits, req.useSpecial, req.useUpper, req.useLower))
    ensures forall k :: 0 <= k < |ps| && ps[k].Some? ==> |ps[k].value| == Draws(req.length)
    ensures forall k :: 0 <= k < |ps| && ps[k].Some? ==>
              forall i :: 0 <= i < |ps[k].value| ==> ps[k].value[i] == RequestAlphabet(req)[oracle[k][i]]
    ensures forall k, c :: 0 <= k < |ps| && ps[k].Some? && c in ps[k].value ==> ChosenClass(req, c)
  {
    seq(|oracle|, k requires 0 <= k < |oracle| =>
      GeneratePassword(req.length, req.useDigits, req.useSpecial, req.useUpper, req.useLower, oracle[k]))
  }

  // ---------------------------------------------------------------------
  // The saved text
  // ---------------------------------------------------------------------

  /** `password + "\n"`: the password, then one newline. */
  function Line(p: string): (r: string)
    ensures |r| == |p| + 1 && r[..|p|] == p && r[|p|] == '\n'
  {
    p + "\n"
  }

  /** Each password followed by a newline, in order, with no header. */
  function SaveText(ps: seq<string>): (text: string)
    ensures text == [] <==> ps == []
    ensures ps != [] ==> text[|text| - 1] == '\n'
  {
    if ps == [] then [] else Line(ps[0]) + SaveText(ps[1..])
  }

  /** Saving two batches in append mode leaves the text of both, in order. */
  lemma {:induction false} SaveTextAppend(a: seq<string>, b: seq<string>)
    ensures SaveText(a + b) == SaveText(a) + SaveText(b)
  {
    if a != [] {
      assert (a + b)[0] == a[0] && (a + b)[1..] == a[1..] + b;
      SaveTextAppend(a[1..], b);
      ghost var x, t, u := Line(a[0]), SaveText(a[1..]), SaveText(b);
      assert SaveText(a + b) == x + (t + u);
      assert x + (t + u) == (x + t) + u;
    } else {
      assert a + b == b;
    }
  }

  /** The position of the first newline, or the length when there is none. */
  function LineEnd(t: string): (k: nat)
    ensures k <= |t|
    ensures forall i :: 0 <= i < k ==> t[i] != '\n'
    ensures k < |t| ==> t[k] == '\n'
  {
    if t == [] || t[0] == '\n' then 0 else 1 + LineEnd(t[1..])
  }

  /** Reading a text back line by line; a last line without newline still counts. */
  function SplitLines(t: string): seq<string>
    decreases |t|
  {
    if t == [] then []
    else
      var k := LineEnd(t);
      if k == |t| then [t] else [t[..k]] + SplitLines(t[k + 1..])
  }

  /** Reading the saved text back gives the batch, when no password holds a newline. */
  lemma {:induction false} SaveTextRoundTrip(ps: seq<string>)
    requires forall k :: 0 <= k < |ps| ==> '\n' !in ps[k]
    ensures SplitLines(SaveText(ps)) == ps
  {
    if ps != [] {
      var p, rest := ps[0], SaveText(ps[1..]);
      var t := Line(p) + rest;
      assert t == SaveText(ps);
      var k := LineEnd(t);
      assert |p| < |t| && t[|p|] == '\n';
      assert forall i :: 0 <= i < |p| ==> t[i] == p[i];
      assert k == |p|;
      assert t[..k] == p;
      assert t[k + 1..] == rest;
      SaveTextRoundTrip(ps[1..]);
    }
  }

  /** Every entry of the batch is a password. */
  predicate Complete(ps: seq<Option<string>>) {
    forall k :: 0 <= k < |ps| ==> ps[k].Some?
  }

  /** The passwords before the first missing one. */
  function Present(ps: seq<Option<string>>): seq<string> {
    if ps == [] || ps[0].None? then [] else [ps[0].value] + Present(ps[1..])
  }

  lemma {:induction false} PresentOfComplete(ps: seq<Option<string>>)
    requires Complete(ps)
    ensures |Present(ps)| == |ps|
    ensures forall k :: 0 <= k < |ps| ==> Present(ps)[k] == ps[k].value
  {
    if ps != [] {
      PresentOfComplete(ps[1..]);
    }
  }

  /** The write loop at a present entry writes its line and goes on with the rest. */
  lemma PresentStep(ps: seq<Option<string>>, i: nat)
    requires i < |ps| && ps[i].Some?
    ensures SaveText(Present(ps[i..])) == Line(ps[i].value) + SaveText(Present(ps[i + 1..]))
  {
    assert ps[i..][1..] == ps[i + 1..];
  }

  /**
    Lines 80-81, as written: `file.write(password + "\n")` for each entry in
    order.  A missing password makes `None + "\n"` raise `TypeError`, which
    nothing catches: the loop stops there (`failed`) with the lines before
    it already written.
  */
  method WriteLines(passwords: seq<Option<string>>) returns (written: string, failed: bool)
    ensures failed <==> !Complete(passwords)
    ensures written == SaveText(Present(passwords))
  {
    written, failed := [], false;
    var i := 0;
    while i < |passwords|
      invariant 0 <= i <= |passwords|
      invariant forall k :: 0 <= k < i ==> passwords[k].Some?
      invariant written + SaveText(Present(passwords[i..])) == SaveText(Present(passwords))
    {
      match passwords[i]
      case None =>
        failed := true;
        return;
      case Some(p) =>
        ghost var rest := SaveText(Present(passwords[i + 1..]));
        PresentStep(passwords, i);
        assert (written + Line(p)) + rest == written + (Line(p) + rest);
        written := written + Line(p);
      i := i + 1;
    }
  }

  // ---------------------------------------------------------------------
  // Declining every class
  // ---------------------------------------------------------------------

  /**
    As written, a round whose four class prompts are all answered no
    produces a batch of missing passwords, and saving it fails at the
    first one having written nothing.
  */
  lemma EmptySelectionBreaksSave(req: Request, oracle: seq<seq<nat>>)
    requires BatchOracleFits(req, oracle)
    requires req.numPasswords >= 1
    requires !req.useLower && !req.useUpper && !req.useDigits && !req.useSpecial
    ensures !Complete(Batch(req, oracle))
    ensures SaveText(Present(Batch(req, oracle))) == []
  {
    var ps := Batch(req, oracle);
    assert ps[0].None?;
  }

  /**
    The batch with the empty selection handled as `generate_password`'s
    own message asks: no class chosen abandons the batch (`None`), and
    otherwise every entry is a password of the requested length over the
    chosen classes.
  */
  function GenerateBatch(req: Request, oracle: seq<seq<nat>>): (r: Option<seq<string>>)
    requires BatchOracleFits(req, oracle)
    ensures r.None? <==> !AnySelected(req.useDigits, req.useSpecial, req.useUpper, req.useLower)
    ensures r.Some? ==> |r.value| == Draws(req.numPasswords)
    ensures r.Some? ==> forall k :: 0 <= k < |r.value| ==> |r.value[k]| == Draws(req.length)
    ensures r.Some? ==> forall k, c :: 0 <= k < |r.value| && c in r.value[k] ==> ChosenClass(req, c)
    ensures r.Some? ==> forall k :: 0 <= k < |r.value| ==> Some(r.value[k]) == Batch(req, oracle)[k]
  {
    var ps := Batch(req, oracle);
    if !AnySelected(req.useDigits, req.useSpecial, req.useUpper, req.useLower) then None
    else Some(seq(|ps|, k requires 0 <= k < |ps| => ps[k].value))
  }

  /**
    Saving a batch that was not abandoned never fails: the whole batch is
    written, one line per password, and reading the text back gives the
    batch.
  */
  lemma CorrectedBatchSaves(req: Request, oracle: seq<seq<nat>>, ps: seq<string>)
    requires BatchOracleFits(req, oracle)
    requires GenerateBatch(req, oracle) == Some(ps)
    ensures Complete(Batch(req, oracle))
    ensures SaveText(Present(Batch(req, oracle))) == SaveText(ps)
    ensures SplitLines(SaveText(ps)) == ps
  {
    var b := Batch(req, oracle);
    PresentOfComplete(b);
    assert Present(b) == ps;
    assert !ChosenClass(req, '\n');
    SaveTextRoundTrip(ps);
  }
}
