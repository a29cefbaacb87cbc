/**
 * The `EnigmaState` record of unigma.h and the functions of unigma.c that
 * update it in place: `init_enigma` (with `init_rotors`, `init_notches`,
 * `init_positions`, `init_plugboard`), `set_rotor_positions`,
 * `set_plugboard`, `step_rotors` and the key loop of `run_enigma`. Each
 * method is proved against the functions of the Cipher module.
 */
module Machine {
  import opened Layout
  import opened Letters
  import opened Rotors
  import opened Plugboard
  import opened Cipher

  /** A C string argument that may be NULL. */
  datatype Option<T> = None | Some(value: T)

  class EnigmaState {
    /** `rotors[i].wiring`: rotors I, II, III and reflector B. */
    var rotors: seq<string>
    /** `notch_positions`, indexed like `positions`. */
    var notches: seq<int>
    /** `positions`: 0 = right, 1 = middle, 2 = left. */
    const positions: array<int>
    /** `plugboard`: the text of the pair list, without its terminating NUL. */
    var plugboard: string

    /** The tables hold their initial values and the plugboard text fits its 256-byte buffer. */
    ghost predicate Valid()
      reads this
    {
      && rotors == ROTOR_WIRINGS
      && notches == NOTCH_POSITIONS_INIT
      && positions.Length == NUM_ROTORS
      && |plugboard| < MAX_PLUGBOARD_LEN
    }

    /**
     * What the key loop needs of the state: 26-letter wirings, three
     * positions and notches, and a plugboard text made of letter pairs.
     */
    predicate Ready()
      reads this
    {
      && Shaped(rotors)
      && |notches| == NUM_ROTORS
      && positions.Length == NUM_ROTORS
      && WellFormed(plugboard)
    }

    /** `init_enigma`: standard wirings and notches, start setting A A A, empty plugboard. */
    constructor ()
      ensures Valid()
      ensures fresh(positions)
      ensures positions[..] == [0, 0, 0]
      ensures plugboard == ""
    {
      rotors := [];
      notches := [];
      positions := new int[NUM_ROTORS];
      plugboard := "";
      new;
      InitRotors();
      InitNotches();
      InitPositions();
      InitPlugboard();
    }

    /** `init_rotors`: copies the four wirings. */
    method InitRotors()
      modifies this
      ensures rotors == ROTOR_WIRINGS
      ensures notches == old(notches) && plugboard == old(plugboard)
    {
      rotors := [];
      for i := 0 to NUM_ROTOR_WIRINGS
        invariant rotors == ROTOR_WIRINGS[..i]
        invariant notches == old(notches) && plugboard == old(plugboard)
      {
        rotors := rotors + [ROTOR_WIRINGS[i]];
      }
    }

    /** `init_notches`: copies the three notch positions. */
    method InitNotches()
      modifies this
      ensures notches == NOTCH_POSITIONS_INIT
      ensures rotors == old(rotors) && plugboard == old(plugboard)
    {
      notches := [];
      for i := 0 to NUM_ROTORS
        invariant notches == NOTCH_POSITIONS_INIT[..i]
        invariant rotors == old(rotors) && plugboard == old(plugboard)
      {
        notches := notches + [NOTCH_POSITIONS_INIT[i]];
      }
    }

    /** `init_positions`: every rotor at A. */
    method InitPositions()
      requires positions.Length == NUM_ROTORS
      modifies positions
      ensures positions[..] == [0, 0, 0]
    {
      for i := 0 to NUM_ROTORS
        invariant forall j | 0 <= j < i :: positions[j] == 0
      {
        positions[i] := 0;
      }
    }

    /** `init_plugboard`: no pairs. */
    method InitPlugboard()
      modifies this
      ensures plugboard == ""
      ensures rotors == old(rotors) && notches == old(notches)
    {
      plugboard := "";
    }

    /**
     * `set_rotor_positions`: accepts exactly three letters of either case,
     * given left, middle, right, and stores each as its distance from 'A'
     * without converting it: a lowercase letter is stored 32 above its
     * uppercase index. On rejection (where the C program exits) nothing changes.
     */
    method SetRotorPositions(setting: Option<string>) returns (ok: bool)
      requires Valid()
      modifies positions
      ensures Valid()
      ensures ok <==> setting.Some? && |setting.value| == NUM_ROTORS
                      && forall i | 0 <= i < NUM_ROTORS :: IsLetter(setting.value[i])
      ensures ok ==> positions[..] == [Ord(setting.value[2]), Ord(setting.value[1]), Ord(setting.value[0])]
      ensures ok && (forall i | 0 <= i < NUM_ROTORS :: IsUpper(setting.value[i])) ==> InRange(positions[..])
      ensures !ok ==> positions[..] == old(positions[..])
    {
      if setting.None? || |setting.value| != NUM_ROTORS {
        return false;
      }
      var s := setting.value;
      for i := 0 to NUM_ROTORS
        invariant forall j | 0 <= j < i :: IsLetter(s[j])
      {
        var c := s[i];
        if IsLower(c) {
          c := ToUpper(c);
        }
        if !IsUpper(c) {
          return false;
        }
      }
      positions[2] := Ord(s[0]);
      positions[1] := Ord(s[1]);
      positions[0] := Ord(s[2]);
      ok := true;
    }

    /**
     * `set_plugboard`: NULL clears the plugboard; a text of 256 characters or
     * more is rejected (where the C program exits); otherwise the text is
     * copied and uppercased in place.
     */
    method SetPlugboard(config: Option<string>) returns (ok: bool)
      requires Valid()
      modifies this
      ensures Valid()
      ensures config.None? ==> ok && plugboard == ""
      ensures config.Some? ==> (ok <==> |config.value| < MAX_PLUGBOARD_LEN)
      ensures config.Some? && ok ==> plugboard == UpperString(config.value)
      ensures !ok ==> plugboard == old(plugboard)
    {
      if config.None? {
        plugboard := "";
        return true;
      }
      var text := config.value;
      if |text| >= MAX_PLUGBOARD_LEN {
        return false;
      }
      plugboard := text;
      for i := 0 to |plugboard|
        invariant |plugboard| == |text|
        invariant forall j | 0 <= j < i :: plugboard[j] == ToUpper(text[j])
        invariant forall j | i <= j < |text| :: plugboard[j] == text[j]
        invariant rotors == old(rotors) && notches == old(notches)
      {
        if IsLower(plugboard[i]) {
          plugboard := plugboard[i := ToUpper(plugboard[i])];
        }
      }
      ok := true;
    }

    /** `step_rotors`: the middle and left rotors are checked before the right rotor moves. */
    method StepRotors()
      requires |notches| == NUM_ROTORS && positions.Length == NUM_ROTORS
      modifies positions
      ensures positions[..] == Stepped(old(positions[..]), notches)
      ensures InRange(old(positions[..])) ==> InRange(positions[..])
    {
      if positions[1] == notches[1] {
        positions[1] := ModPositive(positions[1] + 1);
        positions[2] := ModPositive(positions[2] + 1);
      } else if positions[0] == notches[0] {
        positions[1] := ModPositive(positions[1] + 1);
      }
      positions[0] := ModPositive(positions[0] + 1);
    }

    /** The body of the `run_enigma` loop for one input character. */
    method ProcessChar(ch: char) returns (out: char)
      requires Ready()
      modifies positions
      ensures (out, positions[..]) == Keystroke(ch, old(positions[..]), rotors, notches, plugboard)
    {
      var c := ch;
      if IsLower(c) {
        c := ToUpper(c);
      }
      if !IsUpper(c) {
        return c;
      }
      StepRotors();
      c := ApplyPlugboard(c, plugboard);
      var k := Ord(c);
      k := EncodeThroughRotor(k, rotors[2], positions[0], Forward);
      k := EncodeThroughRotor(k, rotors[1], positions[1], Forward);
      k := EncodeThroughRotor(k, rotors[0], positions[2], Forward);
      k := Reflect(rotors[REFLECTOR], k);
      k := EncodeThroughRotor(k, rotors[0], positions[2], Reverse);
      k := EncodeThroughRotor(k, rotors[1], positions[1], Reverse);
      k := EncodeThroughRotor(k, rotors[2], positions[0], Reverse);
      c := Chr(k);
      out := ApplyPlugboard(c, plugboard);
    }

    /** `run_enigma`: every input character in turn, the output stream in order. */
    method RunEnigma(input: string) returns (output: string)
      requires Ready()
      modifies positions
      ensures (output, positions[..]) == Transcribe(input, old(positions[..]), rotors, notches, plugboard)
    {
      ghost var start, rs, ns, pb := positions[..], rotors, notches, plugboard;
      output := [];
      var i := 0;
      assert input[i..] == input && output + Transcribe(input, start, rs, ns, pb).0
          == Transcribe(input, start, rs, ns, pb).0;
      while i < |input|
        invariant 0 <= i <= |input|
        invariant rotors == rs && notches == ns && plugboard == pb
        invariant output + Transcribe(input[i..], positions[..], rs, ns, pb).0
               == Transcribe(input, start, rs, ns, pb).0
        invariant Transcribe(input[i..], positions[..], rs, ns, pb).1
               == Transcribe(input, start, rs, ns, pb).1
      {
        ghost var before := positions[..];
        TranscribeFrom(input, i, before, rs, ns, pb);
        var o := ProcessChar(input[i]);
        ghost var rest := Transcribe(input[i + 1..], positions[..], rs, ns, pb).0;
        assert output + ([o] + rest) == (output + [o]) + rest;
        output := output + [o];
        i := i + 1;
      }
      assert input[i..] == [] && output + [] == output;
    }
  }

  /**
   * A machine as the program sets it up: `init_enigma`, then
   * `set_rotor_positions` and `set_plugboard` with arguments they accept.
   */
  method NewConfigured(setting: string, pairs: string) returns (m: EnigmaState)
    requires |setting| == NUM_ROTORS && forall i | 0 <= i < NUM_ROTORS :: IsLetter(setting[i])
    requires |pairs| < MAX_PLUGBOARD_LEN
    ensures fresh(m) && fresh(m.positions) && m.Valid()
    ensures m.positions[..] == [Ord(setting[2]), Ord(setting[1]), Ord(setting[0])]
    ensures m.plugboard == UpperString(pairs)
  {
    m := new EnigmaState();
    var ok := m.SetRotorPositions(Some(setting));
    ok := m.SetPlugboard(Some(pairs));
  }

  /**
   * Two machines configured alike: the second, fed the first one's output,
   * prints the first one's input with its lowercase letters uppercased. The
   * pairs must be well formed and disjoint once uppercased.
   */
  method EncipherThenDecipher(setting: string, pairs: string, text: string)
    returns (cipher: string, plain: string)
    requires |setting| == NUM_ROTORS && forall i | 0 <= i < NUM_ROTORS :: IsLetter(setting[i])
    requires |pairs| < MAX_PLUGBOARD_LEN
    requires WellFormed(UpperString(pairs)) && DisjointPairs(Pairs(UpperString(pairs)))
    ensures |cipher| == |text|
    ensures plain == UpperString(text)
  {
    StandardWirings();
    var sender := NewConfigured(setting, pairs);
    ghost var start := sender.positions[..];
    cipher := sender.RunEnigma(text);
    var receiver := NewConfigured(setting, pairs);
    plain := receiver.RunEnigma(cipher);
    TranscribeSelfReciprocal(text, start, ROTOR_WIRINGS, NOTCH_POSITIONS_INIT, UpperString(pairs));
  }
}
