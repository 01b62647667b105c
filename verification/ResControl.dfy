/**
  The text of a subtree_control file: words separated by blanks and newlines, each enabling or
  disabling one controller for the children of a domain.
 */
module ResControl {
  import opened Options

  datatype Controller = Cpu | Mem | Pid | Io
  const ALL: set<Controller> := {Cpu, Mem, Pid, Io}

  function Name(c: Controller): string
  {
    match c
    case Cpu => "cpu"
    case Mem => "memory"
    case Pid => "pids"
    case Io => "io"
  }

  /** The controller of a name, tried in numerical order. */
  function Named(name: string): (r: Option<Controller>)
    ensures forall c :: r == Some(c) <==> Name(c) == name
  {
    if name == "cpu" then Some(Cpu) else if name == "memory" then Some(Mem)
    else if name == "pids" then Some(Pid) else if name == "io" then Some(Io) else None
  }

  predicate Separator(c: char)
  {
    c == ' ' || c == '\n'
  }

  /** A C string: the characters before the first NUL. */
  function CString(s: string): (r: string)
    ensures |r| <= |s| && (forall i :: 0 <= i < |r| ==> r[i] == s[i] != '\0') && (|r| < |s| ==> s[|r|] == '\0')
  {
    if s == [] || s[0] == '\0' then [] else [s[0]] + CString(s[1..])
  }

  /** Length of the word at the front of a text. */
  function WordLength(s: string): (n: nat)
    ensures n <= |s| && (forall i :: 0 <= i < n ==> !Separator(s[i])) && (n < |s| ==> Separator(s[n]))
  {
    if s == [] || Separator(s[0]) then 0 else 1 + WordLength(s[1..])
  }

  function Words(s: string): (ws: seq<string>)
    ensures forall w :: w in ws ==> w != []
  {
    if s == [] then []
    else if Separator(s[0]) then Words(s[1..])
    else [s[..WordLength(s)]] + Words(s[WordLength(s)..])
  }

  predicate Disables(word: string)
  {
    word != [] && word[0] == '-'
  }

  /** The name in a word, without its sign. */
  function Bare(word: string): string
  {
    if word != [] && (word[0] == '+' || word[0] == '-') then word[1..] else word
  }

  /** The effect of one word: enabling needs the controller to be available. */
  function Act(control: set<Controller>, mask: set<Controller>, word: string): (r: set<Controller>)
    ensures control <= mask ==> r <= mask
  {
    match Named(Bare(word))
    case None => control
    case Some(c) => if Disables(word) then control - {c} else if c in mask then control + {c} else control
  }

  function ActAll(control: set<Controller>, mask: set<Controller>, words: seq<string>): (r: set<Controller>)
    ensures control <= mask ==> r <= mask
    decreases |words|
  {
    if words == [] then control else ActAll(Act(control, mask, words[0]), mask, words[1..])
  }

  lemma {:induction false} ActAppend(control: set<Controller>, mask: set<Controller>, v: seq<string>, w: seq<string>)
    ensures ActAll(control, mask, v + w) == ActAll(ActAll(control, mask, v), mask, w)
    decreases |v|
  {
    if v == [] {
      assert v + w == w;
    } else {
      assert (v + w)[1..] == v[1..] + w;
      ActAppend(Act(control, mask, v[0]), mask, v[1..], w);
    }
  }

  /** A controller that no word names stays as it was. */
  lemma {:induction false} Untouched(control: set<Controller>, mask: set<Controller>, words: seq<string>, c: Controller)
    requires forall i :: 0 <= i < |words| ==> Bare(words[i]) != Name(c)
    ensures c in ActAll(control, mask, words) <==> c in control
    decreases |words|
  {
    if words != [] { Untouched(Act(control, mask, words[0]), mask, words[1..], c); }
  }

  /** The last word that names a controller decides about it. */
  lemma LastWordDecides(control: set<Controller>, mask: set<Controller>, words: seq<string>, i: nat, c: Controller)
    requires i < |words| && Bare(words[i]) == Name(c) && (forall j :: i < j < |words| ==> Bare(words[j]) != Name(c))
    requires control <= mask
    ensures c in ActAll(control, mask, words) <==> !Disables(words[i]) && c in mask
  {
    var before := ActAll(control, mask, words[..i]);
    assert words == words[..i] + words[i..];
    ActAppend(control, mask, words[..i], words[i..]);
    assert words[i..][1..] == words[i + 1..];
    Untouched(Act(before, mask, words[i]), mask, words[i + 1..], c);
  }

  // ---- Reading the file back ----

  function Signed(cs: seq<Controller>): (ws: seq<string>)
    ensures |ws| == |cs| && forall i :: 0 <= i < |cs| ==> ws[i] == "+" + Name(cs[i])
  {
    if cs == [] then [] else ["+" + Name(cs[0])] + Signed(cs[1..])
  }

  /** The enabled controllers, each with a plus sign, blanks between them and a newline at the end. */
  function Render(cs: seq<Controller>): string
  {
    if cs == [] then "" else "+" + Name(cs[0]) + (if |cs| == 1 then "\n" else " ") + Render(cs[1..])
  }

  /** What a read of the file returns for the enabled controllers in numerical order. */
  function FileText(cs: seq<Controller>): string
  {
    if cs == [] then "\n" else Render(cs)
  }

  lemma {:induction false} FirstWord(w: string, sep: char, rest: string)
    requires w != [] && Separator(sep) && forall i :: 0 <= i < |w| ==> !Separator(w[i])
    ensures Words(w + [sep] + rest) == [w] + Words(rest)
  {
    var s := w + [sep] + rest;
    assert s[|w|] == sep && forall i :: 0 <= i < |w| ==> s[i] == w[i];
    assert WordLength(s) == |w|;
    assert s[..|w|] == w && s[|w|..] == [sep] + rest && s[|w|..][1..] == rest;
  }

  lemma {:induction false} RenderWords(cs: seq<Controller>)
    ensures Words(Render(cs)) == Signed(cs)
  {
    if cs != [] {
      RenderWords(cs[1..]);
      var w, sep := "+" + Name(cs[0]), if |cs| == 1 then '\n' else ' ';
      FirstWord(w, sep, Render(cs[1..]));
      assert Render(cs) == w + [sep] + Render(cs[1..]);
    }
  }

  lemma {:induction false} SignedEnable(control: set<Controller>, mask: set<Controller>, cs: seq<Controller>)
    requires forall c :: c in cs ==> c in mask
    ensures ActAll(control, mask, Signed(cs)) == control + (set c | c in cs)
    decreases |cs|
  {
    if cs != [] {
      var w := "+" + Name(cs[0]);
      assert Bare(w) == Name(cs[0]) && !Disables(w);
      assert Named(Name(cs[0])) == Some(cs[0]);
      SignedEnable(control + {cs[0]}, mask, cs[1..]);
    }
  }

  /** Writing back what was read from the file restores the setting, starting from any subset of it. */
  lemma ReadWriteRoundTrip(control: set<Controller>, start: set<Controller>, mask: set<Controller>, cs: seq<Controller>)
    requires control <= mask && start <= control && control == (set c | c in cs)
    ensures ActAll(start, mask, Words(FileText(cs))) == control
  {
    RenderWords(cs);
    SignedEnable(start, mask, cs);
    if cs == [] {
      assert Words("\n") == Words([]);
    }
  }
}
