/** The line editor of the host console (app/zmux/pty_session.py): history, and the
    escape sequences keys arrive in. */
module LineEditing {
  import opened Wrappers
  import opened Text

  const HISTORY_LIMIT: nat := 500
  const ESC: char := '\U{1B}'

  datatype Esc = Plain | Escape | Csi | Ss3

  datatype Editor = Editor(line: string, esc: Esc, history: seq<string>, index: Option<nat>, stash: string)

  const EMPTY := Editor("", Plain, [], None, "")

  // ---------------------------------------------------------------- history

  /** One step up or down the history, from and back to the line being typed. */
  function Browse(e: Editor, up: bool): (r: Editor)
    ensures r.esc == e.esc && r.history == e.history
  {
    if e.history == [] || (e.index.None? && !up) then e
    else
      var stash := if e.index.None? then e.line else e.stash;
      var next := e.index.GetOr(|e.history|) + if up then -1 else 1;
      if next >= |e.history| then e.(line := stash, index := None, stash := stash)
      else
        var i := if next < 0 then 0 else next;
        e.(line := e.history[i], index := Some(i), stash := stash)
  }

  lemma BrowseIgnoresEsc(e: Editor, esc: Esc, up: bool)
    ensures Browse(e.(esc := esc), up) == Browse(e, up).(esc := esc)
  {
  }

  function Capped(history: seq<string>): seq<string> {
    if |history| > HISTORY_LIMIT then history[|history| - HISTORY_LIMIT..] else history
  }

  function Remember(e: Editor, line: string): Editor {
    if line != "" && (e.history == [] || e.history[|e.history| - 1] != line) then
      e.(history := Capped(e.history + [line]), index := None)
    else e.(index := None)
  }

  /** A line that is submitted is put last, and the oldest line goes when there are
      too many; a blank one and a repeated one are not put there. */
  lemma RememberMeans(e: Editor, line: string)
    ensures var r, repeated := Remember(e, line), e.history != [] && e.history[|e.history| - 1] == line;
            && r.index == None && (r.line, r.esc, r.stash) == (e.line, e.esc, e.stash)
            && if line == "" || repeated then r.history == e.history
               else
                 && (|e.history| < HISTORY_LIMIT ==> r.history == e.history + [line])
                 && (|e.history| == HISTORY_LIMIT ==> r.history == e.history[1..] + [line])
  {
    if |e.history| == HISTORY_LIMIT {
      assert (e.history + [line])[1..] == e.history[1..] + [line];
    }
  }

  predicate Printable(s: string) {
    forall i | 0 <= i < |s| :: s[i] >= ' ' && s[i] != '\U{7F}'
  }

  predicate Proper(line: string) {
    line != "" && Strip(line) == line && Printable(line)
  }

  /** A history holds at most so many lines, none blank or padded, no two alike in
      a row. */
  predicate Orderly(history: seq<string>) {
    && |history| <= HISTORY_LIMIT
    && (forall i | 0 <= i < |history| :: Proper(history[i]))
    && (forall i | 0 <= i < |history| - 1 :: history[i] != history[i + 1])
  }

  /** What the editor keeps: no control character ever stands in a line. */
  predicate Tidy(e: Editor) {
    && Printable(e.line) && Printable(e.stash)
    && Orderly(e.history)
    && (e.index.Some? ==> e.index.value < |e.history|)
  }

  lemma BrowseKeeps(e: Editor, up: bool)
    requires Tidy(e)
    ensures Tidy(Browse(e, up)) && Browse(e, up).history == e.history
  {
  }

  lemma SuffixKeeps(history: seq<string>, d: nat)
    requires d <= |history|
    requires forall i | 0 <= i < |history| :: Proper(history[i])
    requires forall i | 0 <= i < |history| - 1 :: history[i] != history[i + 1]
    ensures var r := history[d..];
            && (forall i | 0 <= i < |r| :: Proper(r[i]))
            && (forall i | 0 <= i < |r| - 1 :: r[i] != r[i + 1])
  {
    var r := history[d..];
    forall i | 0 <= i < |r| - 1 ensures r[i] != r[i + 1] {
      assert r[i] == history[d + i] && r[i + 1] == history[(d + i) + 1];
    }
  }

  lemma AppendKeeps(history: seq<string>, line: string)
    requires Orderly(history) && Proper(line)
    requires history == [] || history[|history| - 1] != line
    ensures var r := history + [line];
            && (forall i | 0 <= i < |r| :: Proper(r[i]))
            && (forall i | 0 <= i < |r| - 1 :: r[i] != r[i + 1])
  {
    var r := history + [line];
    forall i | 0 <= i < |r| - 1 ensures r[i] != r[i + 1] {
      assert r[i] == history[i];
    }
  }

  lemma CappedKeeps(history: seq<string>, line: string)
    requires Orderly(history) && Proper(line)
    requires history == [] || history[|history| - 1] != line
    ensures Orderly(Capped(history + [line]))
  {
    var all := history + [line];
    AppendKeeps(history, line);
    SuffixKeeps(all, if |all| > HISTORY_LIMIT then |all| - HISTORY_LIMIT else 0);
    assert all[0..] == all;
  }

  lemma RememberKeeps(e: Editor, line: string)
    requires Tidy(e) && Strip(line) == line && Printable(line)
    ensures Tidy(Remember(e, line))
  {
    if line != "" && (e.history == [] || e.history[|e.history| - 1] != line) {
      CappedKeeps(e.history, line);
    }
  }

  // -------------------------------------------------------------- stripping

  predicate AllSpace(s: string) {
    forall i | 0 <= i < |s| :: IsSpace(s[i])
  }

  lemma {:induction false} StripLeftMeans(s: string) returns (k: nat)
    ensures k <= |s| && StripLeft(s) == s[k..] && (k == |s| || !IsSpace(s[k])) && AllSpace(s[..k])
  {
    if s != "" && IsSpace(s[0]) {
      k := StripLeftMeans(s[1..]);
      assert s[..k + 1] == [s[0]] + s[1..][..k];
      k := k + 1;
    } else {
      k := 0;
    }
  }

  lemma {:induction false} StripRightMeans(s: string) returns (n: nat)
    ensures n <= |s| && StripRight(s) == s[..n] && (n == 0 || !IsSpace(s[n - 1])) && AllSpace(s[n..])
  {
    if s != "" && IsSpace(s[|s| - 1]) {
      var front := s[..|s| - 1];
      n := StripRightMeans(front);
      assert s[n..] == front[n..] + [s[|s| - 1]];
    } else {
      n := |s|;
    }
  }

  /** Stripping leaves a part of the text, and takes off nothing but white space. */
  lemma StripIsPart(s: string) returns (k: nat, n: nat)
    ensures k <= n <= |s| && Strip(s) == s[k..n]
    ensures k == n || (!IsSpace(s[k]) && !IsSpace(s[n - 1]))
    ensures AllSpace(s[..k]) && AllSpace(s[n..])
  {
    k := StripLeftMeans(s);
    var m := StripRightMeans(s[k..]);
    n := k + m;
    assert s[k..][..m] == s[k..n] && s[k..][m..] == s[n..];
  }

  /** White space in ASCII: blank, tab, the line ends, and no visible character. */
  lemma AsciiSpaces(c: char)
    requires c < '\U{7F}'
    ensures c in " \t\n\r" ==> IsSpace(c)
    ensures c > ' ' ==> !IsSpace(c)
  {
  }

  lemma StrippedAlready(r: string)
    requires r == "" || (!IsSpace(r[0]) && !IsSpace(r[|r| - 1]))
    ensures Strip(r) == r
  {
  }

  /** What is left is left alone by stripping again. */
  lemma StripSettles(s: string)
    ensures Strip(Strip(s)) == Strip(s) && (Printable(s) ==> Printable(Strip(s)))
  {
    var k, n := StripIsPart(s);
    var r := s[k..n];
    assert forall i | 0 <= i < |r| :: r[i] == s[k + i];
    StrippedAlready(r);
  }

  // -------------------------------------------------------------- ups, downs

  function Browses(e: Editor, up: bool, k: nat): (r: Editor)
    ensures r.esc == e.esc && r.history == e.history
    decreases k
  {
    if k == 0 then e else Browses(Browse(e, up), up, k - 1)
  }

  function Floor(i: int): nat {
    if i < 0 then 0 else i
  }

  /** At the line being typed or at a recalled line, `k` Ups. */
  lemma {:induction false} Ups(e: Editor, k: nat)
    requires e.history != [] && (e.index.Some? ==> e.index.value < |e.history|) && k > 0
    ensures var i := Floor(e.index.GetOr(|e.history|) - k);
            Browses(e, true, k) ==
            e.(line := e.history[i], index := Some(i), stash := if e.index.None? then e.line else e.stash)
    decreases k
  {
    if k > 1 {
      Ups(Browse(e, true), k - 1);
    }
  }

  lemma {:induction false} Downs(e: Editor, j: nat)
    requires e.index.Some? && e.index.value < |e.history|
    requires j > 0 || e.line == e.history[e.index.value]
    ensures var i := e.index.value + j;
            Browses(e, false, j) ==
            if i < |e.history| then e.(line := e.history[i], index := Some(i))
            else e.(line := e.stash, index := None)
    decreases j
  {
    if j > 0 {
      if e.index.value + 1 < |e.history| {
        Downs(Browse(e, false), j - 1);
      } else {
        DownsIdle(Browse(e, false), j - 1);
      }
    }
  }

  lemma {:induction false} DownsIdle(e: Editor, j: nat)
    requires e.index.None?
    ensures Browses(e, false, j) == e
  {
    if j > 0 {
      DownsIdle(e, j - 1);
    }
  }

  /** Ups and then Downs from the line being typed: it is back exactly when there
      are as many Downs as Ups that found a line; otherwise a recalled line shows. */
  lemma UpsThenDowns(e: Editor, k: nat, j: nat)
    requires e.index.None?
    ensures var n := |e.history|;
            var r := Browses(Browses(e, true, k), false, j);
            && r.history == e.history && r.esc == e.esc
            && (r.index.None? <==> j >= if k < n then k else n)
            && (r.index.None? ==> r.line == e.line)
            && (r.index.Some? ==> r.index.value == Floor(n - k) + j < n && r.line == e.history[Floor(n - k) + j])
  {
    if e.history == [] {
      UpsIdle(e, k);
      DownsIdle(e, j);
    } else if k == 0 {
      DownsIdle(e, j);
    } else {
      Ups(e, k);
      Downs(Browses(e, true, k), j);
    }
  }

  lemma {:induction false} UpsIdle(e: Editor, k: nat)
    requires e.history == []
    ensures Browses(e, true, k) == e
  {
    if k > 0 {
      UpsIdle(e, k - 1);
    }
  }

  /** From a recalled line any such keys show a recalled line as it was, or the line
      put aside at first; what was changed in the line is gone. */
  lemma UpsThenDownsFromRecalled(e: Editor, k: nat, j: nat)
    requires e.index.Some? && e.index.value < |e.history|
    ensures var i := Floor(e.index.value - k) + j;
            Browses(Browses(e, true, k), false, j) ==
            if k + j == 0 then e
            else if i < |e.history| then e.(line := e.history[i], index := Some(i))
            else e.(line := e.stash, index := None)
  {
    if k > 0 {
      Ups(e, k);
      Downs(Browses(e, true, k), j);
    } else if j > 0 {
      Downs(e, j);
    }
  }

  // --------------------------------------------------------- escape sequences

  predicate IsFinal(c: char) {
    '\U{40}' <= c < '\U{7F}'
  }

  /** A key as the user pressed it: a character, an arrow, or a sequence that means
      nothing here. */
  datatype Key = Pressed(c: char) | Up | Down | Ignored

  function KeyOf(final: char): Key {
    if final == 'A' then Up else if final == 'B' then Down else Ignored
  }

  function FirstFinal(text: string): (n: nat)
    ensures n <= |text| && (n < |text| ==> IsFinal(text[n]))
    ensures forall i | 0 <= i < n :: !IsFinal(text[i])
  {
    if text == "" || IsFinal(text[0]) then 0 else 1 + FirstFinal(text[1..])
  }

  /** The text read as keys: ESC [ ... final, ESC O one character, ESC and any other
      character, or one character; and what an unfinished sequence leaves open. */
  function Keys(text: string): (seq<Key>, Esc)
    decreases |text|
  {
    if text == "" then ([], Plain)
    else if text[0] != ESC then More(Pressed(text[0]), Keys(text[1..]))
    else if |text| == 1 then ([], Escape)
    else if text[1] == '[' then
      var n := 2 + FirstFinal(text[2..]);
      if n == |text| then ([], Csi) else More(KeyOf(text[n]), Keys(text[n + 1..]))
    else if text[1] == 'O' then
      if |text| == 2 then ([], Ss3) else More(KeyOf(text[2]), Keys(text[3..]))
    else More(Ignored, Keys(text[2..]))
  }

  function More(key: Key, rest: (seq<Key>, Esc)): (seq<Key>, Esc) {
    ([key] + rest.0, rest.1)
  }
}
