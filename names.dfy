/** The name normaliser `dotify` of app/util/regex.py: three string
    rewrites applied in turn, each written out by hand over `seq<char>`:
      1. every capital initial gets ". " appended     (AddDots),
      2. every run of whitespace becomes one space    (CollapseSpaces),
      3. whitespace is stripped from both ends        (Strip).
    Whitespace is the six characters space, tab, line feed, carriage
    return, form feed and vertical tab, for both the pattern and strip. */
module Names {
  import opened Chars

  // ---------------------------------------------------------------------
  // Predicates describing strings
  // ---------------------------------------------------------------------

  /** Position i holds an initial: an ASCII capital followed by
      whitespace, another capital, or the end of the string. (The end
      anchor also matches just before a final newline, but that newline is
      whitespace, so the case is already covered.) */
  predicate IsInitialAt(s: string, i: nat)
    requires i < |s|
  {
    IsUpper(s[i]) && (i + 1 == |s| || IsSpace(s[i + 1]) || IsUpper(s[i + 1]))
  }

  /** No position of s is matched by the initial pattern: every capital is
      followed by a character that is neither whitespace nor a capital. */
  predicate NoBareCapital(s: string) {
    forall i | 0 <= i < |s| :: !IsInitialAt(s, i)
  }

  /** Every character of s is whitespace. */
  predicate AllSpace(s: string) {
    forall i | 0 <= i < |s| :: IsSpace(s[i])
  }

  /** The only whitespace character is ' ' and no two spaces are adjacent. */
  predicate SingleSpaced(s: string) {
    (forall i | 0 <= i < |s| :: IsSpace(s[i]) ==> s[i] == ' ') &&
    (forall i, j | 0 <= i < |s| && 0 <= j < |s| && j == i + 1 :: !(s[i] == ' ' && s[j] == ' '))
  }

  /** No whitespace at either end. */
  predicate Trimmed(s: string) {
    s == [] || (!IsSpace(s[0]) && !IsSpace(s[|s| - 1]))
  }

  /** Whitespace normal form: single spaces between words, none at the ends. */
  predicate SpaceNormal(s: string) {
    SingleSpaced(s) && Trimmed(s)
  }

  /** s with every whitespace character removed. */
  function DropSpaces(s: string): (r: string)
    ensures |r| <= |s|
    ensures forall i | 0 <= i < |r| :: !IsSpace(r[i])
  {
    if s == [] then []
    else (if IsSpace(s[0]) then [] else [s[0]]) + DropSpaces(s[1..])
  }

  /** Reference description of what dotify keeps: the non-whitespace
      characters of s in order, with one '.' directly after every initial. */
  function Marked(s: string): string {
    if s == [] then []
    else if IsSpace(s[0]) then Marked(s[1..])
    else if IsInitialAt(s, 0) then [s[0], '.'] + Marked(s[1..])
    else [s[0]] + Marked(s[1..])
  }

  // ---------------------------------------------------------------------
  // The three rewrites and dotify
  // ---------------------------------------------------------------------

  /** Step 1: every initial c becomes "c. ". The lookahead consumes
      nothing, so consecutive capitals are each matched ("HG" gives
      "H. G. "). */
  function AddDots(s: string): (r: string)
    ensures s != [] ==> r != [] && r[0] == s[0]
    ensures |r| >= |s|
  {
    if s == [] then []
    else (if IsInitialAt(s, 0) then [s[0], '.', ' '] else [s[0]]) + AddDots(s[1..])
  }

  /** s without its leading whitespace. */
  function TrimLeft(s: string): (r: string)
    ensures |r| <= |s|
    ensures r == [] || !IsSpace(r[0])
  {
    if s != [] && IsSpace(s[0]) then TrimLeft(s[1..]) else s
  }

  /** s without its trailing whitespace. */
  function TrimRight(s: string): (r: string)
    ensures |r| <= |s| && r == s[..|r|]
    ensures r == [] || !IsSpace(r[|r| - 1])
  {
    if s != [] && IsSpace(s[|s| - 1]) then TrimRight(s[..|s| - 1]) else s
  }

  /** Step 2: every maximal run of whitespace becomes one ' '. */
  function CollapseSpaces(s: string): (r: string)
    ensures s != [] && !IsSpace(s[0]) ==> r != [] && r[0] == s[0]
    ensures s != [] && IsSpace(s[0]) ==> r != [] && r[0] == ' '
    decreases |s|
  {
    if s == [] then []
    else if IsSpace(s[0]) then [' '] + CollapseSpaces(TrimLeft(s[1..]))
    else [s[0]] + CollapseSpaces(s[1..])
  }

  /** Step 3: `str.strip()`, with the same whitespace set. */
  function Strip(s: string): (r: string)
    ensures Trimmed(r)
    ensures r == s <==> Trimmed(s)
  {
    TrimRight(TrimLeft(s))
  }

  /** `dotify(name)`: the name with a dot after every capital initial, in
      whitespace normal form. */
  function Dotify(name: string): (r: string)
    ensures SpaceNormal(r)
    ensures NoBareCapital(r)
    ensures DropSpaces(r) == Marked(name)
  {
    var dotted := AddDots(name);
    var collapsed := CollapseSpaces(dotted);
    AddDotsNoBareCapital(name);
    CollapseNoBareCapital(dotted);
    StripNoBareCapital(collapsed);
    CollapseSingleSpaced(dotted);
    StripSingleSpaced(collapsed);
    DropSpacesAddDots(name);
    DropSpacesCollapse(dotted);
    StripDropSpaces(collapsed);
    Strip(collapsed)
  }

  // ---------------------------------------------------------------------
  // The stated properties of dotify
  // ---------------------------------------------------------------------

  /** The strings dotify leaves alone are exactly those in whitespace
      normal form with no bare capital. */
  lemma DotifyFixedPoint(s: string)
    ensures Dotify(s) == s <==> SpaceNormal(s) && NoBareCapital(s)
  {
    if SpaceNormal(s) && NoBareCapital(s) {
      AddDotsFixedPoint(s);
      CollapseFixedPoint(s);
    }
  }

  /** dotify is idempotent. */
  lemma DotifyIdempotent(s: string)
    ensures Dotify(Dotify(s)) == Dotify(s)
  {
    DotifyFixedPoint(Dotify(s));
  }

  /** A run of whitespace between two words becomes exactly one space,
      and the words on either side are dotified independently of each
      other. */
  lemma DotifySplit(a: string, w: string, b: string)
    requires !AllSpace(a)
    requires w != [] && AllSpace(w)
    requires b != [] && !IsSpace(b[0])
    ensures Dotify(a + w + b) == Dotify(a) + [' '] + Dotify(b)
  {
    AddDotsAroundSpaces(a, w, b);
    AddDotsNotBlank(a);
    NormaliseSplit(AddDots(a), w, AddDots(b));
    DotifyUnfold(a + w + b);
    DotifyUnfold(a);
    DotifyUnfold(b);
  }

  /** Dotify is the three steps in turn. Stated as a lemma so that the
      proofs above can name the unfolding for one argument at a time,
      which keeps them cheap. */
  lemma DotifyUnfold(s: string)
    ensures Dotify(s) == Strip(CollapseSpaces(AddDots(s)))
  {
  }

  /** Leading whitespace is dropped. */
  lemma DotifyLeadingSpaces(w: string, s: string)
    requires AllSpace(w)
    ensures Dotify(w + s) == Dotify(s)
  {
    assert AddDots(w + s) == w + AddDots(s) by {
      AddDotsAppend(w, s);
      AddDotsOfSpaces(w);
    }
    NormaliseLeadingBlank(w, AddDots(s));
    DotifyUnfold(w + s);
    DotifyUnfold(s);
  }

  /** Trailing whitespace is dropped. */
  lemma DotifyTrailingSpaces(s: string, w: string)
    requires AllSpace(w)
    ensures Dotify(s + w) == Dotify(s)
  {
    assert AddDots(s + w) == AddDots(s) + w by {
      AddDotsAppend(s, w);
      AddDotsOfSpaces(w);
    }
    NormaliseTrailingBlank(AddDots(s), w);
    DotifyUnfold(s + w);
    DotifyUnfold(s);
  }

  /** A capital that ends a word after a character that is neither
      whitespace nor a capital is dotted in place, with no space inside
      the word. */
  lemma DotifyFinalCapital(p: string, c: char)
    requires p != [] && !IsSpace(p[|p| - 1]) && !IsUpper(p[|p| - 1])
    requires IsUpper(c)
    ensures Dotify(p + [c]) == Dotify(p) + [c, '.']
  {
    var a := AddDots(p);
    var x := a + [c, '.'];
    assert AddDots(p + [c]) == x + [' '] by {
      AddDotsEndCapital(p, c);
      AppendAssoc(a, [c, '.'], [' ']);
    }
    assert a != [] && !IsSpace(a[|a| - 1]) by {
      AddDotsKeepsLast(p);
    }
    assert Strip(CollapseSpaces(x + [' '])) == Strip(CollapseSpaces(x)) by {
      NormaliseTrailingBlank(x, [' ']);
    }
    CollapseDotted(c);
    NormaliseAppendWord(a, [c, '.']);
    DotifyUnfold(p + [c]);
    DotifyUnfold(p);
  }

  /** Step 2 leaves "c." alone. */
  lemma CollapseDotted(c: char)
    requires IsUpper(c)
    ensures CollapseSpaces([c, '.']) == [c, '.']
  {
    var d := ['.'];
    assert [c, '.'] == [c] + d;
    assert ([c] + d)[1..] == d;
    assert d[1..] == [];
    assert CollapseSpaces(d) == d;
  }

  /** Steps 2 and 3 keep a word that step 2 leaves alone, appended to a
      piece ending in non-whitespace. */
  lemma NormaliseAppendWord(a: string, z: string)
    requires a != [] && !IsSpace(a[|a| - 1])
    requires z != [] && !IsSpace(z[|z| - 1]) && CollapseSpaces(z) == z
    ensures Strip(CollapseSpaces(a + z)) == Strip(CollapseSpaces(a)) + z
  {
    var ca := CollapseSpaces(a);
    assert CollapseSpaces(a + z) == ca + z by {
      CollapseAppend(a, z);
    }
    assert ca != [] && !IsSpace(ca[|ca| - 1]) by {
      CollapseKeepsLast(a);
    }
    StripAppendWord(ca, z);
  }

  /** Inside a word, a capital directly followed by a capital is dotted,
      and the space after its dot separates it from the rest. */
  lemma DotifyCapitalPair(p: string, c: char, b: string)
    requires IsUpper(c) && b != [] && IsUpper(b[0])
    ensures Dotify(p + [c] + b) == Dotify(p + [c]) + [' '] + Dotify(b)
  {
    var x := AddDots(p) + [c, '.'];
    AddDotsEndCapital(p, c);
    assert AddDots(p + [c]) == x + [' '];
    assert AddDots(p + [c] + b) == x + [' '] + AddDots(b) by {
      AddDotsAppend(p + [c], b);
    }
    assert TrimRight(x) != [] by {
      assert x[|x| - 1] == '.';
    }
    NormaliseSplit(x, [' '], AddDots(b));
    NormaliseTrailingBlank(x, [' ']);
    DotifyUnfold(p + [c] + b);
    DotifyUnfold(p + [c]);
    DotifyUnfold(b);
  }

  /** A leading initial followed by whitespace and a word becomes "c. "
      in front of the dotified rest. */
  lemma DotifyInitialBeforeSpace(c: char, w: string, rest: string)
    requires IsUpper(c) && w != [] && AllSpace(w) && rest != [] && !IsSpace(rest[0])
    ensures Dotify([c] + w + rest) == [c, '.', ' '] + Dotify(rest)
  {
    assert !IsSpace([c][0]);
    DotifySplit([c], w, rest);
    DotifyLastInitial(c);
  }

  /** The lookahead consumes nothing: a capital directly followed by a
      capital is an initial too, and a space is inserted after its dot. */
  lemma DotifyInitialBeforeCapital(c: char, rest: string)
    requires IsUpper(c) && rest != [] && IsUpper(rest[0])
    ensures Dotify([c] + rest) == [c, '.', ' '] + Dotify(rest)
  {
    var x := AddDots(rest);
    assert ([c] + rest)[1..] == rest;
    assert IsInitialAt([c] + rest, 0);
    assert AddDots([c] + rest) == [c, '.', ' '] + x;
    NormaliseAfterInitial(c, x);
  }

  /** A capital at the end is an initial; the space after its dot is
      stripped. */
  lemma DotifyLastInitial(c: char)
    requires IsUpper(c)
    ensures Dotify([c]) == [c, '.']
  {
    assert IsInitialAt([c], 0);
    assert AddDots([c]) == [c, '.', ' '];
    assert CollapseSpaces([c, '.', ' ']) == [c, '.', ' '] by {
      assert [c, '.', ' '][1..] == ['.', ' '];
      assert ['.', ' '][1..] == [' '];
      assert CollapseSpaces([' ']) == [' '];
    }
    assert TrimLeft([c, '.', ' ']) == [c, '.', ' '];
    assert [c, '.', ' '][..2] == [c, '.'];
    assert TrimRight([c, '.']) == [c, '.'];
  }

  /** DotifyInitialBeforeSpace when the rest is already normal. */
  lemma DotifyInitialBeforeNormal(c: char, w: string, rest: string)
    requires IsUpper(c) && w != [] && AllSpace(w) && rest != [] && !IsSpace(rest[0])
    requires SpaceNormal(rest) && NoBareCapital(rest)
    ensures Dotify([c] + w + rest) == [c, '.', ' '] + rest
  {
    DotifyInitialBeforeSpace(c, w, rest);
    DotifyFixedPoint(rest);
  }

  /** First example of the function's documentation: a capital followed by
      a lower-case letter is not an initial. */
  lemma DotifyHubbard(name: string)
    requires name == "L Ron Hubbard"
    ensures Dotify(name) == "L. Ron Hubbard"
  {
    var rest := "Ron Hubbard";
    HubbardParts(name, rest);
    DotifyInitialBeforeNormal('L', [' '], rest);
  }

  /** Second example: every single-letter initial is dotted and the
      doubled spaces collapse. */
  lemma DotifyWells(name: string)
    requires name == "H G Wells"
    ensures Dotify(name) == "H. G. Wells"
  {
    var rest := "Wells";
    var tail := ['G'] + [' '] + rest;
    WellsParts(name, tail, rest);
    DotifyInitialBeforeNormal('G', [' '], rest);
    DotifyInitialBeforeSpace('H', [' '], tail);
  }

  /** A word in capitals is not an initial, yet every letter of it is
      dotted: each capital is followed by a capital or the end. */
  lemma DotifyCapitalWord(name: string)
    requires name == "DOE"
    ensures Dotify(name) == "D. O. E."
  {
    var oe := "OE";
    CapitalWordParts(name, oe);
    DotifyTwoCapitals(oe);
    DotifyInitialBeforeCapital('D', oe);
  }

  lemma DotifyTwoCapitals(name: string)
    requires name == "OE"
    ensures Dotify(name) == "O. E."
  {
    var e := ['E'];
    assert name == ['O'] + e;
    DotifyLastInitial('E');
    DotifyInitialBeforeCapital('O', e);
    assert ['O', '.', ' '] + ['E', '.'] == "O. E.";
  }

  lemma CapitalWordParts(name: string, oe: string)
    requires name == "DOE" && oe == "OE"
    ensures name == ['D'] + oe && IsUpper(oe[0])
    ensures ['D', '.', ' '] + "O. E." == "D. O. E."
  {
  }

  lemma HubbardParts(name: string, rest: string)
    requires name == "L Ron Hubbard" && rest == "Ron Hubbard"
    ensures name == ['L'] + [' '] + rest && SpaceNormal(rest) && NoBareCapital(rest)
  {
  }

  lemma WellsParts(name: string, tail: string, rest: string)
    requires name == "H G Wells" && tail == ['G'] + [' '] + rest && rest == "Wells"
    ensures name == ['H'] + [' '] + tail && SpaceNormal(rest) && NoBareCapital(rest)
    ensures ['H', '.', ' '] + (['G', '.', ' '] + rest) == "H. G. Wells"
  {
  }

  /** Third example: an already dotted name is a fixed point. */
  lemma DotifyWellsDotted()
    ensures Dotify("H. G. Wells") == "H. G. Wells"
  {
    assert SpaceNormal("H. G. Wells");
    assert NoBareCapital("H. G. Wells");
    DotifyFixedPoint("H. G. Wells");
  }

  /** Consecutive capitals are each dotted. */
  lemma DotifyConsecutiveCapitals(name: string)
    requires name == "HG"
    ensures Dotify(name) == "H. G."
  {
    var g := ['G'];
    assert name == ['H'] + g;
    DotifyInitialBeforeCapital('H', g);
    DotifyLastInitial('G');
  }

  /** Leading whitespace is stripped, and no space enters the word. */
  lemma DotifyLeadingSpace(name: string)
    requires name == " Ron"
    ensures Dotify(name) == "Ron"
  {
    var ron := "Ron";
    assert name == [' '] + ron;
    assert SpaceNormal(ron) && NoBareCapital(ron);
    DotifyLeadingSpaces([' '], ron);
    DotifyFixedPoint(ron);
  }

  /** A final capital inside a word is dotted without a space before it. */
  lemma DotifyInnerCapital(name: string)
    requires name == "McD"
    ensures Dotify(name) == "McD."
  {
    var mc := "Mc";
    assert name == mc + ['D'];
    assert SpaceNormal(mc) && NoBareCapital(mc);
    DotifyFinalCapital(mc, 'D');
    DotifyFixedPoint(mc);
    assert mc + ['D', '.'] == "McD.";
  }

  // ---------------------------------------------------------------------
  // Lemmas about the predicates
  // ---------------------------------------------------------------------

  lemma NoBareCapitalCons(s: string)
    requires s != []
    ensures NoBareCapital(s) <==> !IsInitialAt(s, 0) && NoBareCapital(s[1..])
  {
    if NoBareCapital(s) {
      forall j | 0 <= j < |s| - 1
        ensures !IsInitialAt(s[1..], j)
      {
        assert !IsInitialAt(s, j + 1);
      }
    }
    if !IsInitialAt(s, 0) && NoBareCapital(s[1..]) {
      forall i | 0 <= i < |s|
        ensures !IsInitialAt(s, i)
      {
        if i > 0 {
          assert !IsInitialAt(s[1..], i - 1);
        }
      }
    }
  }

  /** A suffix of a string with no bare capital has none either. */
  lemma NoBareCapitalSuffix(s: string, k: nat)
    requires k <= |s|
    requires NoBareCapital(s)
    ensures NoBareCapital(s[k..])
  {
    forall i | 0 <= i < |s| - k
      ensures IsInitialAt(s[k..], i) == IsInitialAt(s, i + k)
    {
    }
  }

  lemma SingleSpacedCons(c: char, s: string)
    requires SingleSpaced(s)
    requires IsSpace(c) ==> c == ' ' && (s == [] || s[0] != ' ')
    ensures SingleSpaced([c] + s)
  {
    var t := [c] + s;
    forall i | 1 <= i < |t| ensures t[i] == s[i - 1] { }
  }

  lemma SingleSpacedSlice(s: string, a: nat, b: nat)
    requires a <= b <= |s|
    requires SingleSpaced(s)
    ensures SingleSpaced(s[a..b])
  {
    var t := s[a..b];
    forall i | 0 <= i < |t| ensures t[i] == s[a + i] { }
  }

  lemma {:induction false} DropSpacesAppend(a: string, b: string)
    ensures DropSpaces(a + b) == DropSpaces(a) + DropSpaces(b)
  {
    if a == [] {
      assert a + b == b;
    } else {
      assert (a + b)[1..] == a[1..] + b;
      DropSpacesAppend(a[1..], b);
    }
  }

  lemma {:induction false} DropSpacesOfSpaces(s: string)
    requires AllSpace(s)
    ensures DropSpaces(s) == []
  {
    if s != [] {
      DropSpacesOfSpaces(s[1..]);
    }
  }

  /** Dropping a whitespace-only prefix does not change DropSpaces. */
  lemma DropSpacesOfSuffix(s: string, k: nat)
    requires k <= |s|
    requires AllSpace(s[..k])
    ensures DropSpaces(s[k..]) == DropSpaces(s)
  {
    assert s == s[..k] + s[k..];
    DropSpacesAppend(s[..k], s[k..]);
    DropSpacesOfSpaces(s[..k]);
  }

  /** Dropping a whitespace-only suffix does not change DropSpaces. */
  lemma DropSpacesOfPrefix(s: string, k: nat)
    requires k <= |s|
    requires AllSpace(s[k..])
    ensures DropSpaces(s[..k]) == DropSpaces(s)
  {
    assert s == s[..k] + s[k..];
    DropSpacesAppend(s[..k], s[k..]);
    DropSpacesOfSpaces(s[k..]);
  }

  // ---------------------------------------------------------------------
  // Lemmas about the rewrites
  // ---------------------------------------------------------------------

  /** TrimLeft removes a whitespace prefix and keeps the rest. */
  lemma {:induction false} TrimLeftRemovesSpace(s: string)
    ensures TrimLeft(s) == s[|s| - |TrimLeft(s)|..]
    ensures AllSpace(s[..|s| - |TrimLeft(s)|])
  {
    if s != [] && IsSpace(s[0]) {
      TrimLeftRemovesSpace(s[1..]);
      assert s[..|s| - |TrimLeft(s)|] == [s[0]] + s[1..][..|s[1..]| - |TrimLeft(s[1..])|];
    }
  }

  /** What TrimRight removes is whitespace. */
  lemma {:induction false} TrimRightRemovesSpace(s: string)
    ensures AllSpace(s[|TrimRight(s)|..])
  {
    if s != [] && IsSpace(s[|s| - 1]) {
      var s' := s[..|s| - 1];
      TrimRightRemovesSpace(s');
      assert s[|TrimRight(s)|..] == s'[|TrimRight(s')|..] + [s[|s| - 1]];
    }
  }

  /** Step 1 changes a string exactly when it has a bare capital. */
  lemma {:induction false} AddDotsFixedPoint(s: string)
    ensures AddDots(s) == s <==> NoBareCapital(s)
  {
    if s != [] {
      NoBareCapitalCons(s);
      AddDotsFixedPoint(s[1..]);
      if !IsInitialAt(s, 0) {
        assert s == [s[0]] + s[1..];
        if AddDots(s) == s {
          assert AddDots(s)[1..] == AddDots(s[1..]);
        }
      }
    }
  }

  /** Step 1 leaves no bare capital: each initial is now followed by '.'. */
  lemma {:induction false} AddDotsNoBareCapital(s: string)
    ensures NoBareCapital(AddDots(s))
  {
    if s != [] {
      var rest := AddDots(s[1..]);
      AddDotsNoBareCapital(s[1..]);
      if IsInitialAt(s, 0) {
        var t := [s[0], '.', ' '] + rest;
        NoBareCapitalCons([' '] + rest);
        assert ([' '] + rest)[1..] == rest;
        NoBareCapitalCons(['.', ' '] + rest);
        assert (['.', ' '] + rest)[1..] == [' '] + rest;
        NoBareCapitalCons(t);
        assert t[1..] == ['.', ' '] + rest;
      } else {
        var t := [s[0]] + rest;
        NoBareCapitalCons(t);
        assert t[1..] == rest;
      }
    }
  }

  /** Dropping whitespace from step 1's output gives the reference Marked. */
  lemma {:induction false} DropSpacesAddDots(s: string)
    ensures DropSpaces(AddDots(s)) == Marked(s)
  {
    if s != [] {
      var piece := if IsInitialAt(s, 0) then [s[0], '.', ' '] else [s[0]];
      DropSpacesAppend(piece, AddDots(s[1..]));
      DropSpacesAddDots(s[1..]);
      if IsInitialAt(s, 0) {
        assert DropSpaces(piece) == [s[0], '.'] by {
          assert piece[1..] == ['.', ' '];
          assert piece[1..][1..] == [' '];
          assert DropSpaces([' ']) == [];
          assert DropSpaces(['.', ' ']) == ['.'];
        }
      }
    }
  }

  /** Step 2's output is single-spaced. */
  lemma {:induction false} CollapseSingleSpaced(s: string)
    ensures SingleSpaced(CollapseSpaces(s))
    decreases |s|
  {
    if s != [] {
      if IsSpace(s[0]) {
        var t := TrimLeft(s[1..]);
        CollapseSingleSpaced(t);
        SingleSpacedCons(' ', CollapseSpaces(t));
      } else {
        CollapseSingleSpaced(s[1..]);
        SingleSpacedCons(s[0], CollapseSpaces(s[1..]));
      }
    }
  }

  /** A single-spaced string is left alone by step 2. */
  lemma {:induction false} CollapseFixedPoint(s: string)
    requires SingleSpaced(s)
    ensures CollapseSpaces(s) == s
  {
    if s != [] {
      SingleSpacedSlice(s, 1, |s|);
      CollapseFixedPoint(s[1..]);
      if IsSpace(s[0]) {
        assert s[1..] == [] || !IsSpace(s[1..][0]);
        assert TrimLeft(s[1..]) == s[1..];
      }
    }
  }

  /** Step 2 only changes whitespace. */
  lemma {:induction false} DropSpacesCollapse(s: string)
    ensures DropSpaces(CollapseSpaces(s)) == DropSpaces(s)
    decreases |s|
  {
    if s != [] {
      if IsSpace(s[0]) {
        var t := TrimLeft(s[1..]);
        DropSpacesCollapse(t);
        CollapseLeadingSpace(s);
        DropSpacesAppend([' '], CollapseSpaces(t));
        assert DropSpaces([' ']) == [];
        DropSpacesSkipBlank(s);
      } else {
        DropSpacesCollapse(s[1..]);
        DropSpacesAppend([s[0]], CollapseSpaces(s[1..]));
      }
    }
  }

  /** Leading whitespace does not count for DropSpaces. */
  lemma DropSpacesSkipBlank(s: string)
    requires s != [] && IsSpace(s[0])
    ensures DropSpaces(TrimLeft(s[1..])) == DropSpaces(s)
  {
    var u := s[1..];
    var k := |u| - |TrimLeft(u)|;
    assert TrimLeft(u) == u[k..] && AllSpace(u[..k]) by {
      TrimLeftRemovesSpace(u);
    }
    assert DropSpaces(u[k..]) == DropSpaces(u) by {
      DropSpacesOfSuffix(u, k);
    }
    assert DropSpaces(s) == DropSpaces(u);
  }

  /** Step 2 introduces no bare capital. */
  lemma {:induction false} CollapseNoBareCapital(s: string)
    requires NoBareCapital(s)
    ensures NoBareCapital(CollapseSpaces(s))
    decreases |s|
  {
    if s != [] {
      NoBareCapitalCons(s);
      if IsSpace(s[0]) {
        var t := TrimLeft(s[1..]);
        TrimLeftRemovesSpace(s[1..]);
        NoBareCapitalSuffix(s[1..], |s[1..]| - |t|);
        CollapseNoBareCapital(t);
        var r := [' '] + CollapseSpaces(t);
        NoBareCapitalCons(r);
        assert r[1..] == CollapseSpaces(t);
      } else {
        CollapseNoBareCapital(s[1..]);
        var r := [s[0]] + CollapseSpaces(s[1..]);
        NoBareCapitalCons(r);
        assert r[1..] == CollapseSpaces(s[1..]);
      }
    }
  }

  /** Step 3 only removes whitespace. */
  lemma StripDropSpaces(s: string)
    ensures DropSpaces(Strip(s)) == DropSpaces(s)
  {
    var left := TrimLeft(s);
    TrimLeftRemovesSpace(s);
    TrimRightRemovesSpace(left);
    DropSpacesOfSuffix(s, |s| - |left|);
    DropSpacesOfPrefix(left, |TrimRight(left)|);
  }

  /** Step 3 introduces no bare capital. */
  lemma StripNoBareCapital(s: string)
    requires NoBareCapital(s)
    ensures NoBareCapital(Strip(s))
  {
    var left := TrimLeft(s);
    TrimLeftRemovesSpace(s);
    NoBareCapitalSuffix(s, |s| - |left|);
    var r := TrimRight(left);
    TrimRightRemovesSpace(left);
    forall i | 0 <= i < |r|
      ensures !IsInitialAt(r, i)
    {
      assert !IsInitialAt(left, i);
      if i + 1 == |r| && i + 1 < |left| {
        assert left[i + 1] == left[|r|..][0];
      }
    }
  }

  /** Step 3 keeps single spacing. */
  lemma StripSingleSpaced(s: string)
    requires SingleSpaced(s)
    ensures SingleSpaced(Strip(s))
  {
    var left := TrimLeft(s);
    TrimLeftRemovesSpace(s);
    SingleSpacedSlice(s, |s| - |left|, |s|);
    SingleSpacedSlice(left, 0, |TrimRight(left)|);
  }

  // ---------------------------------------------------------------------
  // Rewriting piecewise
  // ---------------------------------------------------------------------

  /** Step 1 works piecewise when the cut does not separate a capital from
      the character that decides whether it is an initial. */
  lemma {:induction false} AddDotsAppend(a: string, b: string)
    requires a == [] || b == [] || !IsUpper(a[|a| - 1]) || IsSpace(b[0]) || IsUpper(b[0])
    ensures AddDots(a + b) == AddDots(a) + AddDots(b)
  {
    if a == [] {
      assert a + b == b;
    } else {
      assert (a + b)[1..] == a[1..] + b;
      assert IsInitialAt(a + b, 0) == IsInitialAt(a, 0);
      AddDotsAppend(a[1..], b);
    }
  }

  lemma {:induction false} TrimLeftAppend(a: string, b: string)
    ensures TrimLeft(a + b) == if TrimLeft(a) == [] then TrimLeft(b) else TrimLeft(a) + b
  {
    if a == [] {
      assert a + b == b;
    } else {
      assert (a + b)[1..] == a[1..] + b;
      TrimLeftAppend(a[1..], b);
    }
  }

  /** Step 2 works piecewise when the cut does not fall inside a run of
      whitespace. */
  lemma {:induction false} CollapseAppend(a: string, b: string)
    requires a == [] || b == [] || !IsSpace(a[|a| - 1]) || !IsSpace(b[0])
    ensures CollapseSpaces(a + b) == CollapseSpaces(a) + CollapseSpaces(b)
    decreases |a|, 2
  {
    if a == [] {
      assert a + b == b;
    } else if IsSpace(a[0]) {
      CollapseAppendSpace(a, b);
    } else {
      assert (a + b)[0] == a[0];
      assert (a + b)[1..] == a[1..] + b;
      CollapseAppend(a[1..], b);
    }
  }

  /** CollapseAppend when a starts with whitespace. */
  lemma {:induction false} CollapseAppendSpace(a: string, b: string)
    requires a != [] && IsSpace(a[0])
    requires b == [] || !IsSpace(a[|a| - 1]) || !IsSpace(b[0])
    ensures CollapseSpaces(a + b) == CollapseSpaces(a) + CollapseSpaces(b)
    decreases |a|, 1
  {
    if TrimLeft(a[1..]) == [] {
      CollapseAppendBlank(a, b);
    } else {
      CollapseAppendSpaceWord(a, b);
    }
  }

  /** CollapseAppend when a starts with whitespace followed by more than
      whitespace. */
  lemma {:induction false} CollapseAppendSpaceWord(a: string, b: string)
    requires a != [] && IsSpace(a[0]) && TrimLeft(a[1..]) != []
    requires b == [] || !IsSpace(a[|a| - 1]) || !IsSpace(b[0])
    ensures CollapseSpaces(a + b) == CollapseSpaces(a) + CollapseSpaces(b)
    decreases |a|, 0
  {
    var t := TrimLeft(a[1..]);
    assert TrimLeft((a + b)[1..]) == t + b by {
      assert (a + b)[1..] == a[1..] + b;
      TrimLeftAppend(a[1..], b);
    }
    assert t[|t| - 1] == a[|a| - 1] by {
      TrimLeftKeepsLast(a[1..]);
    }
    assert CollapseSpaces(t + b) == CollapseSpaces(t) + CollapseSpaces(b) by {
      CollapseAppend(t, b);
    }
    assert CollapseSpaces(a + b) == [' '] + CollapseSpaces(t + b) by {
      CollapseLeadingSpace(a + b);
    }
    assert CollapseSpaces(a) == [' '] + CollapseSpaces(t) by {
      CollapseLeadingSpace(a);
    }
    AppendAssoc([' '], CollapseSpaces(t), CollapseSpaces(b));
  }

  /** Associativity of concatenation, named so that a proof can apply it
      to the terms it needs instead of leaving the solver to search for
      it. */
  lemma AppendAssoc(p: string, q: string, r: string)
    ensures (p + q) + r == p + (q + r)
  {
  }

  /** What TrimLeft keeps ends as its input does. */
  lemma TrimLeftKeepsLast(s: string)
    requires TrimLeft(s) != []
    ensures TrimLeft(s)[|TrimLeft(s)| - 1] == s[|s| - 1]
  {
    TrimLeftRemovesSpace(s);
  }

  /** CollapseAppend when a is all whitespace. */
  lemma {:induction false} CollapseAppendBlank(a: string, b: string)
    requires a != [] && IsSpace(a[0]) && TrimLeft(a[1..]) == []
    requires b == [] || !IsSpace(a[|a| - 1]) || !IsSpace(b[0])
    ensures CollapseSpaces(a + b) == CollapseSpaces(a) + CollapseSpaces(b)
  {
    BlankEndsInSpace(a);
    var ab := a + b;
    assert ab[1..] == a[1..] + b;
    TrimLeftAppend(a[1..], b);
    TrimLeftWord(b);
    CollapseLeadingSpace(ab);
  }

  /** Step 2 on a string that starts with whitespace. */
  lemma CollapseLeadingSpace(s: string)
    requires s != [] && IsSpace(s[0])
    ensures CollapseSpaces(s) == [' '] + CollapseSpaces(TrimLeft(s[1..]))
  {
  }

  /** TrimLeft leaves alone a string that does not start with whitespace. */
  lemma TrimLeftWord(s: string)
    requires s == [] || !IsSpace(s[0])
    ensures TrimLeft(s) == s
  {
  }

  /** A whitespace-only string collapses to one space and ends in
      whitespace. */
  lemma BlankEndsInSpace(a: string)
    requires a != [] && IsSpace(a[0]) && TrimLeft(a[1..]) == []
    ensures IsSpace(a[|a| - 1]) && CollapseSpaces(a) == [' ']
  {
    var tail := a[1..];
    if |a| > 1 {
      TrimLeftRemovesSpace(tail);
      assert tail[..|tail|] == tail;
      assert a[|a| - 1] == tail[|tail| - 1];
    }
  }

  /** TrimRight works on the right-hand piece when that piece keeps
      something. */
  lemma {:induction false} TrimRightAppend(a: string, b: string)
    requires TrimRight(b) != []
    ensures TrimRight(a + b) == a + TrimRight(b)
    decreases |b|
  {
    var ab := a + b;
    assert ab[|ab| - 1] == b[|b| - 1];
    if IsSpace(b[|b| - 1]) {
      var b' := b[..|b| - 1];
      assert ab[..|ab| - 1] == a + b';
      TrimRightAppend(a, b');
    }
  }

  /** Steps 2 and 3 after an emitted "c. ", when the rest starts with a
      word. */
  lemma {:induction false} NormaliseAfterInitial(c: char, x: string)
    requires IsUpper(c) && x != [] && !IsSpace(x[0])
    ensures Strip(CollapseSpaces([c, '.', ' '] + x)) == [c, '.', ' '] + Strip(CollapseSpaces(x))
  {
    var p := [c, '.', ' '];
    CollapseAppend(p, x);
    assert CollapseSpaces(p) == p by {
      assert p[1..] == ['.', ' '];
      assert p[1..][1..] == [' '];
      assert CollapseSpaces([' ']) == [' '];
    }
    var y := CollapseSpaces(x);
    assert TrimLeft(p + y) == p + y;
    assert TrimLeft(y) == y;
    TrimRightRemovesSpace(y);
    TrimRightAppend(p, y);
  }

  // ---------------------------------------------------------------------
  // Whitespace between words
  // ---------------------------------------------------------------------

  /** Step 1 on two pieces with whitespace between them. */
  lemma AddDotsAroundSpaces(a: string, w: string, b: string)
    requires w != [] && AllSpace(w)
    ensures AddDots(a + w + b) == AddDots(a) + w + AddDots(b)
  {
    var wb := w + b;
    assert IsSpace(wb[0]) by {
      assert wb[0] == w[0];
    }
    assert !IsUpper(w[|w| - 1]) by {
      assert IsSpace(w[|w| - 1]);
    }
    assert AddDots(wb) == w + AddDots(b) by {
      AddDotsAppend(w, b);
      AddDotsOfSpaces(w);
    }
    assert AddDots(a + wb) == AddDots(a) + AddDots(wb) by {
      AddDotsAppend(a, wb);
    }
    assert a + w + b == a + wb;
  }

  /** Step 1 leaves whitespace alone. */
  lemma {:induction false} AddDotsOfSpaces(s: string)
    requires AllSpace(s)
    ensures AddDots(s) == s
  {
    if s != [] {
      AddDotsOfSpaces(s[1..]);
    }
  }

  /** Marked keeps every non-whitespace character, so it is empty only for
      a blank string. */
  lemma {:induction false} MarkedNotEmpty(s: string)
    requires !AllSpace(s)
    ensures Marked(s) != []
  {
    if IsSpace(s[0]) {
      var t := s[1..];
      assert !AllSpace(t) by {
        var i :| 0 <= i < |s| && !IsSpace(s[i]);
        assert t[i - 1] == s[i];
      }
      MarkedNotEmpty(t);
    }
  }

  /** Step 1's output of a non-blank string keeps something after its
      trailing whitespace is removed. */
  lemma AddDotsNotBlank(s: string)
    requires !AllSpace(s)
    ensures TrimRight(AddDots(s)) != []
  {
    var d := AddDots(s);
    DropSpacesAddDots(s);
    MarkedNotEmpty(s);
    TrimRightRemovesSpace(d);
    if TrimRight(d) == [] {
      assert d[0..] == d;
      DropSpacesOfSpaces(d);
    }
  }

  /** TrimLeft empties a blank string. */
  lemma {:induction false} TrimLeftOfSpaces(s: string)
    requires AllSpace(s)
    ensures TrimLeft(s) == []
  {
    if s != [] {
      TrimLeftOfSpaces(s[1..]);
    }
  }

  /** Trailing whitespace is removed along with the rest of it. */
  lemma {:induction false} TrimRightOfSpaceTail(p: string, t: string)
    requires AllSpace(t)
    ensures TrimRight(p + t) == TrimRight(p)
    decreases |t|
  {
    if t == [] {
      assert p + t == p;
    } else {
      var t' := t[..|t| - 1];
      assert (p + t)[..|p + t| - 1] == p + t';
      TrimRightOfSpaceTail(p, t');
    }
  }

  /** Step 2 on a blank string gives nothing or one space. */
  lemma CollapseOfSpaces(s: string)
    requires AllSpace(s)
    ensures AllSpace(CollapseSpaces(s))
  {
    if s != [] {
      TrimLeftOfSpaces(s[1..]);
      BlankEndsInSpace(s);
    }
  }

  /** Step 2 on whitespace followed by a word gives one space and the
      collapsed word. */
  lemma CollapseAfterBlank(v: string, y: string)
    requires v != [] && AllSpace(v) && y != [] && !IsSpace(y[0])
    ensures CollapseSpaces(v + y) == [' '] + CollapseSpaces(y)
  {
    var vy := v + y;
    assert vy[1..] == v[1..] + y;
    TrimLeftOfSpaces(v[1..]);
    TrimLeftAppend(v[1..], y);
    TrimLeftWord(y);
    CollapseLeadingSpace(vy);
  }

  /** Step 2 keeps a final non-whitespace character. */
  lemma CollapseKeepsLast(s: string)
    requires s != [] && !IsSpace(s[|s| - 1])
    ensures CollapseSpaces(s) != [] && !IsSpace(CollapseSpaces(s)[|CollapseSpaces(s)| - 1])
  {
    var p := s[..|s| - 1];
    var last := [s[|s| - 1]];
    assert s == p + last;
    CollapseAppend(p, last);
    assert CollapseSpaces(last) == last by {
      assert last[1..] == [];
    }
  }

  /** A string ending in non-whitespace keeps something under TrimLeft. */
  lemma {:induction false} TrimLeftNotEmpty(s: string)
    requires s != [] && !IsSpace(s[|s| - 1])
    ensures TrimLeft(s) != [] && !IsSpace(TrimLeft(s)[|TrimLeft(s)| - 1])
  {
    if IsSpace(s[0]) {
      TrimLeftNotEmpty(s[1..]);
    }
  }

  /** A string starting with non-whitespace keeps something under
      TrimRight. */
  lemma {:induction false} TrimRightNotEmpty(s: string)
    requires s != [] && !IsSpace(s[0])
    ensures TrimRight(s) != []
  {
    if IsSpace(s[|s| - 1]) {
      TrimRightNotEmpty(s[..|s| - 1]);
    }
  }

  /** Whitespace followed by whitespace is whitespace. */
  lemma AllSpaceAppend(p: string, q: string)
    requires AllSpace(p) && AllSpace(q)
    ensures AllSpace(p + q)
  {
    var v := p + q;
    forall i | 0 <= i < |v| ensures IsSpace(v[i]) {
      if i < |p| { assert v[i] == p[i]; } else { assert v[i] == q[i - |p|]; }
    }
  }

  /** Step 2 on x, a whitespace run w and a word y: the run, together with
      the whitespace that ends x, becomes one space. */
  lemma CollapseSplit(x: string, w: string, y: string)
    requires TrimRight(x) != []
    requires w != [] && AllSpace(w)
    requires y != [] && !IsSpace(y[0])
    ensures CollapseSpaces(x + w + y) == CollapseSpaces(TrimRight(x)) + [' '] + CollapseSpaces(y)
  {
    var x1 := TrimRight(x);
    var x2 := x[|x1|..];
    assert x == x1 + x2 && AllSpace(x2) by {
      TrimRightRemovesSpace(x);
    }
    var v := x2 + w;
    assert AllSpace(v) by {
      AllSpaceAppend(x2, w);
    }
    assert x + w + y == x1 + (v + y) by {
      AppendAssoc(x1, x2, w);
      AppendAssoc(x1, v, y);
    }
    assert CollapseSpaces(x1 + (v + y)) == CollapseSpaces(x1) + ([' '] + CollapseSpaces(y)) by {
      CollapseAppend(x1, v + y);
      CollapseAfterBlank(v, y);
    }
    AppendAssoc(CollapseSpaces(x1), [' '], CollapseSpaces(y));
  }

  /** TrimLeft stops inside a string that ends in non-whitespace. */
  lemma TrimLeftBeforeSpace(c: string, d: string)
    requires c != [] && !IsSpace(c[|c| - 1])
    ensures TrimLeft(c + [' '] + d) == TrimLeft(c) + [' '] + d
  {
    var sd := [' '] + d;
    TrimLeftNotEmpty(c);
    TrimLeftAppend(c, sd);
    assert c + [' '] + d == c + sd;
    assert TrimLeft(c) + sd == TrimLeft(c) + [' '] + d;
  }

  /** Step 3 on a normalised word, one space and another normalised word. */
  lemma StripAroundSpace(c: string, d: string)
    requires c != [] && !IsSpace(c[|c| - 1])
    requires d != [] && !IsSpace(d[0])
    ensures Strip(c + [' '] + d) == TrimLeft(c) + [' '] + Strip(d)
  {
    var m := TrimLeft(c) + [' '];
    TrimLeftBeforeSpace(c, d);
    TrimRightNotEmpty(d);
    TrimRightAppend(m, d);
    TrimLeftWord(d);
  }

  /** Steps 2 and 3 ignore the whitespace that ends a string. */
  lemma NormaliseTrimRight(x: string)
    requires TrimRight(x) != []
    ensures Strip(CollapseSpaces(x)) == TrimLeft(CollapseSpaces(TrimRight(x)))
  {
    var x1 := TrimRight(x);
    var x2 := x[|x1|..];
    assert x == x1 + x2 && AllSpace(x2) by {
      TrimRightRemovesSpace(x);
    }
    NormaliseBlankTail(x1, x2);
  }

  /** NormaliseTrimRight with the trailing whitespace given separately. */
  lemma NormaliseBlankTail(x1: string, x2: string)
    requires x1 != [] && !IsSpace(x1[|x1| - 1]) && AllSpace(x2)
    ensures Strip(CollapseSpaces(x1 + x2)) == TrimLeft(CollapseSpaces(x1))
  {
    var c1 := CollapseSpaces(x1);
    var c2 := CollapseSpaces(x2);
    var l1 := TrimLeft(c1);
    assert CollapseSpaces(x1 + x2) == c1 + c2 by {
      CollapseAppend(x1, x2);
    }
    assert AllSpace(c2) by {
      CollapseOfSpaces(x2);
    }
    assert TrimLeft(c1 + c2) == l1 + c2 && TrimRight(l1) == l1 by {
      CollapseKeepsLast(x1);
      TrimLeftNotEmpty(c1);
      TrimLeftAppend(c1, c2);
    }
    assert TrimRight(l1 + c2) == TrimRight(l1) by {
      TrimRightOfSpaceTail(l1, c2);
    }
  }

  /** Steps 2 and 3 on x, a whitespace run w and a word y: the run becomes
      one space between the normalised x and the normalised y. */
  lemma NormaliseSplit(x: string, w: string, y: string)
    requires TrimRight(x) != []
    requires w != [] && AllSpace(w)
    requires y != [] && !IsSpace(y[0])
    ensures Strip(CollapseSpaces(x + w + y)) == Strip(CollapseSpaces(x)) + [' '] + Strip(CollapseSpaces(y))
  {
    var x1 := TrimRight(x);
    CollapseSplit(x, w, y);
    CollapseKeepsLast(x1);
    StripAroundSpace(CollapseSpaces(x1), CollapseSpaces(y));
    NormaliseTrimRight(x);
  }

  // ---------------------------------------------------------------------
  // Whitespace at the ends and capitals at the end of a piece
  // ---------------------------------------------------------------------

  /** Step 1 on a capital at the end: it is an initial. */
  lemma AddDotsEndCapital(p: string, c: char)
    requires IsUpper(c)
    ensures AddDots(p + [c]) == AddDots(p) + [c, '.', ' ']
  {
    AddDotsAppend(p, [c]);
    assert IsInitialAt([c], 0);
    assert [c][1..] == [];
  }

  /** Step 1 keeps a final character that is not a capital. */
  lemma {:induction false} AddDotsKeepsLast(p: string)
    requires p != [] && !IsUpper(p[|p| - 1])
    ensures AddDots(p) != [] && AddDots(p)[|AddDots(p)| - 1] == p[|p| - 1]
  {
    if |p| > 1 {
      assert p[1..][|p[1..]| - 1] == p[|p| - 1];
      AddDotsKeepsLast(p[1..]);
    } else {
      assert !IsInitialAt(p, 0);
      assert p[1..] == [];
    }
  }

  /** Step 3 on a piece that ends in non-whitespace followed by a word that
      ends in non-whitespace. */
  lemma StripAppendWord(y: string, z: string)
    requires y != [] && !IsSpace(y[|y| - 1])
    requires z != [] && !IsSpace(z[|z| - 1])
    ensures Strip(y + z) == Strip(y) + z
  {
    TrimLeftNotEmpty(y);
    var l := TrimLeft(y);
    assert TrimLeft(y + z) == l + z by {
      TrimLeftAppend(y, z);
    }
    assert (l + z)[|l + z| - 1] == z[|z| - 1];
  }

  /** A string whose TrimRight is empty is blank. */
  lemma TrimRightEmpty(x: string)
    requires TrimRight(x) == []
    ensures AllSpace(x)
  {
    TrimRightRemovesSpace(x);
    assert x[0..] == x;
  }

  /** Steps 2 and 3 make a blank string empty. */
  lemma NormaliseBlank(x: string)
    requires AllSpace(x)
    ensures Strip(CollapseSpaces(x)) == []
  {
    CollapseOfSpaces(x);
    TrimLeftOfSpaces(CollapseSpaces(x));
  }

  /** Steps 2 and 3 ignore trailing whitespace. */
  lemma NormaliseTrailingBlank(x: string, w: string)
    requires AllSpace(w)
    ensures Strip(CollapseSpaces(x + w)) == Strip(CollapseSpaces(x))
  {
    assert TrimRight(x + w) == TrimRight(x) by {
      TrimRightOfSpaceTail(x, w);
    }
    if TrimRight(x) == [] {
      TrimRightEmpty(x);
      TrimRightEmpty(x + w);
      NormaliseBlank(x);
      NormaliseBlank(x + w);
    } else {
      NormaliseTrimRight(x);
      NormaliseTrimRight(x + w);
    }
  }

  /** Steps 2 and 3 on whitespace followed by a word give the normalised
      word. */
  lemma StripAfterBlank(v: string, y: string)
    requires v != [] && AllSpace(v) && y != [] && !IsSpace(y[0])
    ensures Strip(CollapseSpaces(v + y)) == Strip(CollapseSpaces(y))
  {
    var cy := CollapseSpaces(y);
    CollapseAfterBlank(v, y);
    assert TrimLeft([' '] + cy) == TrimLeft(cy) by {
      assert ([' '] + cy)[1..] == cy;
    }
  }

  /** Steps 2 and 3 ignore leading whitespace. */
  lemma NormaliseLeadingBlank(w: string, x: string)
    requires AllSpace(w)
    ensures Strip(CollapseSpaces(w + x)) == Strip(CollapseSpaces(x))
  {
    var x2 := TrimLeft(x);
    var x1 := x[..|x| - |x2|];
    assert x == x1 + x2 && AllSpace(x1) by {
      TrimLeftRemovesSpace(x);
    }
    if x2 == [] {
      assert x == x1;
      AllSpaceAppend(w, x);
      NormaliseBlank(x);
      NormaliseBlank(w + x);
    } else {
      var v := w + x1;
      AllSpaceAppend(w, x1);
      assert w + x == v + x2 by {
        AppendAssoc(w, x1, x2);
      }
      if v != [] {
        StripAfterBlank(v, x2);
      }
      if x1 != [] {
        StripAfterBlank(x1, x2);
      }
    }
  }
}
