/** The single-character command table `commands` and its first-match,
    sentinel-terminated lookup in `handleCli`. Help text and serial replies
    are output only and not modelled. */
module Commands {
  import opened AppState

  datatype Option<T> = None | Some(value: T)

  /** What an entry's lambda does to the globals. */
  datatype Action = PrintHelp | ToggleMeasuring | ToggleEnabled | ToggleAnimating | SelectMode(mode: nat)

  /** A table entry, or the `{0, 0}` terminator that ends every scan. */
  datatype Command = Entry(key: char, action: Action) | Sentinel

  const Table: seq<Command> := [
    Entry('?', PrintHelp),
    Entry('m', ToggleMeasuring),
    Entry('e', ToggleEnabled),
    Entry(' ', ToggleAnimating),
    Entry('1', SelectMode(AnimateLeft)),
    Entry('2', SelectMode(AnimateFront)),
    Entry('3', SelectMode(AnimateRight)),
    Entry('4', SelectMode(AnimateBack)),
    Entry('0', SelectMode(Startup)),
    Sentinel
  ]

  /** The characters the table answers to. */
  const Keys: set<char> := {'?', 'm', 'e', ' ', '1', '2', '3', '4', '0'}

  /** First entry at or after `i` whose key is `c`, scanning up to the
      terminator. */
  function Lookup(c: char, i: nat): Option<Action>
    requires i < |Table|
    decreases |Table| - i
  {
    match Table[i]
    case Sentinel => None
    case Entry(k, a) =>
      if k == c then Some(a)
      else if i + 1 < |Table| then Lookup(c, i + 1)
      else None
  }

  /** The table is one terminator preceded by entries whose keys are
      pairwise distinct and are exactly `Keys`. */
  lemma TableShape()
    ensures |Table| == 10 && Table[9] == Sentinel
    ensures forall j :: 0 <= j < 9 ==> Table[j].Entry?
    ensures forall j, k :: 0 <= j < k < 9 ==> Table[j].key != Table[k].key
    ensures forall c :: c in Keys <==> exists j :: 0 <= j < 9 && Table[j].key == c
  {
    assert forall c :: c in Keys ==> exists j :: 0 <= j < 9 && Table[j].key == c by {
      forall c | c in Keys ensures exists j :: 0 <= j < 9 && Table[j].key == c {
        if c == '?' { assert Table[0].key == c; }
        else if c == 'm' { assert Table[1].key == c; }
        else if c == 'e' { assert Table[2].key == c; }
        else if c == ' ' { assert Table[3].key == c; }
        else if c == '1' { assert Table[4].key == c; }
        else if c == '2' { assert Table[5].key == c; }
        else if c == '3' { assert Table[6].key == c; }
        else if c == '4' { assert Table[7].key == c; }
        else { assert Table[8].key == c; }
      }
    }
  }

  /** The scan from `i` finds the entry keyed `c` if one lies between `i`
      and the terminator, and nothing otherwise. */
  lemma {:induction false} LookupFrom(c: char, i: nat)
    requires i <= 9
    ensures Lookup(c, i).None? <==> forall j :: i <= j < 9 ==> Table[j].key != c
    ensures forall j :: i <= j < 9 && Table[j].key == c ==> Lookup(c, i) == Some(Table[j].action)
    decreases 9 - i
  {
    TableShape();
    if i < 9 {
      LookupFrom(c, i + 1);
    }
  }

  /** First match is the only match: the lookup of `c` yields the action
      of the entry keyed `c` when `c` is a key, and nothing otherwise —
      including for `'\0'`, on which the scan stops at the terminator. */
  lemma LookupFinds(c: char)
    ensures Lookup(c, 0).Some? <==> c in Keys
    ensures forall j :: 0 <= j < 9 && Table[j].key == c ==> Lookup(c, 0) == Some(Table[j].action)
    ensures Lookup('\0', 0) == None
  {
    TableShape();
    LookupFrom(c, 0);
    LookupFrom('\0', 0);
  }

  /** The lambda of an entry. */
  function Apply(a: Action, s: State): State {
    match a
    case PrintHelp => s
    case ToggleMeasuring => s.(measuring := !s.measuring)
    case ToggleEnabled => s.(enabled := !s.enabled, suppressLights := s.enabled)
    case ToggleAnimating => s.(animating := !s.animating)
    case SelectMode(m) => s.(mode := m, phase := 0)
  }

  /** The globals after `handleCli(c)`. */
  function AfterCommand(s: State, c: char): (t: State)
    requires Inv(s)
    ensures Inv(t)
  {
    match Lookup(c, 0)
    case None => s
    case Some(a) => Apply(a, s)
  }

  /** '1'..'4' select the left, front, right and back chase and '0' the
      start-up sweep, each from phase 0 whatever the previous mode and
      phase; nothing else changes. */
  lemma SelectCommands(s: State, c: char)
    requires Inv(s)
    ensures '1' <= c <= '4' ==> AfterCommand(s, c) == s.(mode := c as int - '0' as int + 1, phase := 0)
    ensures c == '0' ==> AfterCommand(s, c) == s.(mode := Startup, phase := 0)
  {
    LookupFinds(c);
    TableShape();
    if '1' <= c <= '4' {
      assert Table[c as int - '1' as int + 4].key == c;
    } else if c == '0' {
      assert Table[8].key == c;
    }
  }

  /** 'e' toggles the supply and suppresses the lights exactly when it
      turns the supply off; ' ' toggles animating, 'm' toggles measuring,
      '?' only prints. */
  lemma ToggleCommands(s: State)
    requires Inv(s)
    ensures AfterCommand(s, 'e') == s.(enabled := !s.enabled, suppressLights := s.enabled)
    ensures AfterCommand(s, 'e').suppressLights == !AfterCommand(s, 'e').enabled
    ensures AfterCommand(s, ' ') == s.(animating := !s.animating)
    ensures AfterCommand(s, 'm') == s.(measuring := !s.measuring)
    ensures AfterCommand(s, '?') == s
  {
    TableShape();
    LookupFinds('e');
    LookupFinds(' ');
    LookupFinds('m');
    LookupFinds('?');
    assert Table[2].key == 'e' && Table[3].key == ' ' && Table[1].key == 'm' && Table[0].key == '?';
  }

  /** Any other character, the terminator's `'\0'` included, changes nothing. */
  lemma UnknownCommand(s: State, c: char)
    requires Inv(s) && c !in Keys
    ensures AfterCommand(s, c) == s
    ensures AfterCommand(s, '\0') == s
  {
    LookupFinds(c);
  }
}
