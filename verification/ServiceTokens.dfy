/** The list of service tokens: "service-id:token" pairs separated by commas. Chars are code points. */
module ServiceTokens {
  import opened Options
  import opened Text
  import opened Trimming

  const MIN_TOKEN := 24

  datatype EntryError = Malformed(entry: string) | EmptyId | EmptyToken(id: string) | ShortToken(id: string)
      | DuplicateId(id: string)

  function BytesOf(c: char): nat {
    if c < '\U{80}' then 1 else if c < '\U{800}' then 2 else if c < '\U{10000}' then 3 else 4
  }

  /** Length in bytes of the UTF-8 encoding. */
  function ByteLength(s: string): nat {
    if s == "" then 0 else ByteLength(s[..|s| - 1]) + BytesOf(s[|s| - 1])
  }

  /** Entry parts around the first colon. */
  function IdOf(entry: string): string
    requires IndexOf(entry, ':') >= 0
  {
    Trim(entry[..IndexOf(entry, ':')])
  }

  function TokenOf(entry: string): string
    requires IndexOf(entry, ':') >= 0
  {
    Trim(entry[IndexOf(entry, ':') + 1..])
  }

  /** The first complaint about a trimmed, non-empty entry, duplicates aside. */
  function Complaint(entry: string, dev: bool): Option<EntryError> {
    if IndexOf(entry, ':') <= 0 then Some(Malformed(entry))
    else if IdOf(entry) == "" then Some(EmptyId)
    else if TokenOf(entry) == "" then Some(EmptyToken(IdOf(entry)))
    else if !dev && ByteLength(TokenOf(entry)) < MIN_TOKEN then Some(ShortToken(IdOf(entry)))
    else None
  }

  type Tokens = map<string, string>

  /** The token map and the errors after some entries. */
  datatype State = State(tokens: Tokens, errors: seq<EntryError>)

  /** One turn of the loop. */
  function Turn(s: State, raw: string, dev: bool): State {
    var entry := Trim(raw);
    if entry == "" then s
    else if Complaint(entry, dev).Some? then s.(errors := s.errors + [Complaint(entry, dev).value])
    else if IdOf(entry) in s.tokens then s.(errors := s.errors + [DuplicateId(IdOf(entry))])
    else s.(tokens := s.tokens[IdOf(entry) := TokenOf(entry)])
  }

  function Loop(entries: seq<string>, dev: bool): State {
    if entries == [] then State(map[], []) else Turn(Loop(entries[..|entries| - 1], dev), entries[|entries| - 1], dev)
  }

  datatype Outcome = Ok(tokens: Tokens) | Missing | NoPairs | Errors(errors: seq<EntryError>)

  function Finish(s: State): Outcome {
    if s.errors != [] then Errors(s.errors) else if s.tokens == map[] then NoPairs else Ok(s.tokens)
  }

  /** parseAndValidateS2STokens. */
  function ParseTokens(raw: string, dev: bool): Outcome {
    if Trim(raw) == "" then Missing else Finish(Loop(Split(Trim(raw), ','), dev))
  }

  class CommsConfig {
    var tokensRaw: string
    var tokenMap: Tokens

    constructor (raw: string)
      ensures tokensRaw == raw && tokenMap == map[]
    {
      tokensRaw, tokenMap := raw, map[];
    }

    /** The map is set exactly when there is nothing to report. */
    method ParseAndValidate(dev: bool) returns (outcome: Outcome)
      modifies this`tokenMap
      ensures outcome == ParseTokens(tokensRaw, dev)
      ensures tokenMap == if outcome.Ok? then outcome.tokens else old(tokenMap)
    {
      var raw := Trim(tokensRaw);
      if raw == "" {
        return Missing;
      }
      var entries := Split(raw, ',');
      var tokens: Tokens := map[];
      var errors: seq<EntryError> := [];
      for k := 0 to |entries|
        invariant State(tokens, errors) == Loop(entries[..k], dev)
      {
        assert entries[..k + 1][..k] == entries[..k];
        var entry := Trim(entries[k]);
        if entry != "" {
          var complaint := Complaint(entry, dev);
          if complaint.Some? {
            errors := errors + [complaint.value];
          } else if IdOf(entry) in tokens {
            errors := errors + [DuplicateId(IdOf(entry))];
          } else {
            tokens := tokens[IdOf(entry) := TokenOf(entry)];
          }
        }
      }
      assert entries[..|entries|] == entries;
      outcome := Finish(State(tokens, errors));
      if outcome.Ok? {
        tokenMap := tokens;
      }
    }
  }

  // ----- success, whatever the order

  predicate IsGood(raw: string, dev: bool) { Trim(raw) != "" && Complaint(Trim(raw), dev).None? }

  /** The id and token of a good entry. */
  function PairOf(raw: string, dev: bool): (string, string)
    requires IsGood(raw, dev)
  {
    (IdOf(Trim(raw)), TokenOf(Trim(raw)))
  }

  /** The text is an id and a token around its first colon, blanks aside, neither of them empty and the
      token outside dev at least 24 bytes long. */
  predicate Parts(entry: string, left: string, right: string, id: string, token: string, dev: bool) {
    && entry == left + ":" + right && ':' !in left && Trim(left) == id && Trim(right) == token
    && id != "" && token != "" && (!dev ==> ByteLength(token) >= 24)
  }

  lemma GoodHasParts(raw: string, dev: bool) returns (left: string, right: string)
    requires IsGood(raw, dev)
    ensures Parts(Trim(raw), left, right, PairOf(raw, dev).0, PairOf(raw, dev).1, dev)
  {
    var entry := Trim(raw);
    var i := IndexOf(entry, ':');
    left, right := entry[..i], entry[i + 1..];
    assert entry == left + ":" + right;
  }

  lemma PartsAreGood(raw: string, dev: bool, left: string, right: string, id: string, token: string)
    requires Parts(Trim(raw), left, right, id, token, dev)
    ensures IsGood(raw, dev) && PairOf(raw, dev) == (id, token)
  {
    ColonOf(Trim(raw), left, right);
  }

  lemma ColonOf(entry: string, left: string, right: string)
    requires entry == left + ":" + right && ':' !in left
    ensures IndexOf(entry, ':') == |left| && entry[..|left|] == left && entry[|left| + 1..] == right
  {
    IndexOfIs(left, ':', right);
  }

  /** Which entries are good, and what they bind. */
  lemma GoodExactly(raw: string, dev: bool, id: string, token: string)
    ensures IsGood(raw, dev) && PairOf(raw, dev) == (id, token) <==>
      exists left, right :: Parts(Trim(raw), left, right, id, token, dev)
  {
    if IsGood(raw, dev) && PairOf(raw, dev) == (id, token) {
      var left, right := GoodHasParts(raw, dev);
    }
    if left, right :| Parts(Trim(raw), left, right, id, token, dev) {
      PartsAreGood(raw, dev, left, right, id, token);
    }
  }

  /** What is wrong with an entry, by what stands around its first colon. */
  lemma ComplaintExactly(entry: string, left: string, right: string, dev: bool)
    requires entry == left + ":" + right && ':' !in left
    ensures Complaint(entry, dev) ==
      if left == "" then Some(Malformed(entry))
      else if Trim(left) == "" then Some(EmptyId)
      else if Trim(right) == "" then Some(EmptyToken(Trim(left)))
      else if !dev && ByteLength(Trim(right)) < 24 then Some(ShortToken(Trim(left)))
      else None
  {
    ColonOf(entry, left, right);
  }

  lemma NoColonIsMalformed(entry: string, dev: bool)
    requires ':' !in entry
    ensures Complaint(entry, dev) == Some(Malformed(entry))
  {
  }

  /** Bytes are at least characters, at most four times as many, and as many in ASCII. */
  lemma {:induction false} ByteLengthBounds(s: string)
    ensures |s| <= ByteLength(s) <= 4 * |s|
    ensures (forall k :: 0 <= k < |s| ==> s[k] < '\U{80}') <==> ByteLength(s) == |s|
  {
    if s == "" {
    } else {
      var init := s[..|s| - 1];
      ByteLengthBounds(init);
      assert forall k :: 0 <= k < |init| ==> init[k] == s[k];
    }
  }

  /** Every entry that is more than blanks is good, and no two of them share an id. */
  ghost predicate WellFormed(entries: seq<string>, dev: bool) {
    && (forall k :: 0 <= k < |entries| && Trim(entries[k]) != "" ==> IsGood(entries[k], dev))
    && (forall j, k :: 0 <= j < k < |entries| && IsGood(entries[j], dev) && IsGood(entries[k], dev) ==>
          PairOf(entries[j], dev).0 != PairOf(entries[k], dev).0)
  }

  ghost predicate Binds(entries: seq<string>, id: string, token: string, dev: bool) {
    exists k :: 0 <= k < |entries| && IsGood(entries[k], dev) && PairOf(entries[k], dev) == (id, token)
  }

  predicate Has(tokens: Tokens, id: string, token: string) { id in tokens && tokens[id] == token }

  lemma BindsAppend(entries: seq<string>, last: string, id: string, token: string, dev: bool)
    ensures Binds(entries + [last], id, token, dev) <==>
            Binds(entries, id, token, dev) || (IsGood(last, dev) && PairOf(last, dev) == (id, token))
  {
    var all := entries + [last];
    if Binds(entries, id, token, dev) {
      var k :| 0 <= k < |entries| && IsGood(entries[k], dev) && PairOf(entries[k], dev) == (id, token);
      assert IsGood(all[k], dev);
    }
    if IsGood(last, dev) {
      assert IsGood(all[|entries|], dev);
    }
  }

  lemma WellFormedAppend(entries: seq<string>, last: string, dev: bool)
    ensures WellFormed(entries + [last], dev) <==>
      && WellFormed(entries, dev) && (Trim(last) != "" ==> IsGood(last, dev))
      && (IsGood(last, dev) ==> forall token :: !Binds(entries, PairOf(last, dev).0, token, dev))
  {
    var all := entries + [last];
    assert forall k :: 0 <= k < |entries| ==> all[k] == entries[k];
    assert all[|entries|] == last;
    if IsGood(last, dev) {
      forall k | 0 <= k < |entries| && IsGood(entries[k], dev) && PairOf(entries[k], dev).0 == PairOf(last, dev).0
        ensures Binds(entries, PairOf(last, dev).0, PairOf(entries[k], dev).1, dev)
      {
      }
    }
  }

  /** The loop ends without errors exactly on well-formed entries, and then binds exactly their pairs. */
  lemma {:induction false} LoopMeaning(entries: seq<string>, dev: bool)
    ensures Loop(entries, dev).errors == [] <==> WellFormed(entries, dev)
    ensures WellFormed(entries, dev) ==> forall id, token :: Has(Loop(entries, dev).tokens, id, token) <==>
      Binds(entries, id, token, dev)
  {
    if entries == [] {
    } else {
      var init, last := entries[..|entries| - 1], entries[|entries| - 1];
      assert entries == init + [last];
      LoopMeaning(init, dev);
      WellFormedAppend(init, last, dev);
      forall id, token { BindsAppend(init, last, id, token, dev); }
      TurnMeaning(Loop(init, dev), init, last, dev);
    }
  }

  lemma TurnMeaning(s: State, entries: seq<string>, last: string, dev: bool)
    requires s.errors == [] <==> WellFormed(entries, dev)
    requires WellFormed(entries, dev) ==> forall id, token :: Has(s.tokens, id, token) <==>
      Binds(entries, id, token, dev)
    ensures Turn(s, last, dev).errors == [] <==>
      && WellFormed(entries, dev) && (Trim(last) != "" ==> IsGood(last, dev))
      && (IsGood(last, dev) ==> forall token :: !Binds(entries, PairOf(last, dev).0, token, dev))
    ensures Turn(s, last, dev).errors == [] ==> forall id, token ::
      Has(Turn(s, last, dev).tokens, id, token) <==>
      Binds(entries, id, token, dev) || (IsGood(last, dev) && PairOf(last, dev) == (id, token))
  {
    if WellFormed(entries, dev) && IsGood(last, dev) {
      var id := PairOf(last, dev).0;
      if id in s.tokens {
        assert Has(s.tokens, id, s.tokens[id]);
      } else {
        forall token ensures !Binds(entries, id, token, dev) { assert !Has(s.tokens, id, token); }
      }
    }
  }

  lemma OccursTwice(s: seq<string>, j: nat, k: nat)
    requires j < k < |s| && s[j] == s[k]
    ensures multiset(s)[s[j]] >= 2
  {
    assert s == s[..j] + [s[j]] + s[j + 1..k] + [s[k]] + s[k + 1..];
  }

  lemma TwoOccurrences(s: seq<string>, x: string) returns (j: nat, k: nat)
    requires multiset(s)[x] >= 2
    ensures j < k < |s| && s[j] == s[k] == x
  {
    assert x in multiset(s);
    j :| 0 <= j < |s| && s[j] == x;
    assert s == s[..j] + [x] + s[j + 1..];
    var rest := s[..j] + s[j + 1..];
    assert multiset(s) == multiset(rest) + multiset{x};
    assert x in multiset(rest);
    var i :| 0 <= i < |rest| && rest[i] == x;
    k := if i < j then i else i + 1;
    assert s[k] == x;
    if k < j {
      j, k := k, j;
    }
  }

  lemma SameMembers(a: seq<string>, b: seq<string>, x: string)
    requires multiset(a) == multiset(b)
    ensures x in a <==> x in b
  {
    assert x in a <==> x in multiset(a);
    assert x in b <==> x in multiset(b);
  }

  lemma GoodEntriesDiffer(a: seq<string>, b: seq<string>, j: nat, k: nat, dev: bool)
    requires multiset(a) == multiset(b) && WellFormed(a, dev)
    requires j < k < |b| && IsGood(b[j], dev) && IsGood(b[k], dev)
    ensures PairOf(b[j], dev).0 != PairOf(b[k], dev).0
  {
    if b[j] == b[k] {
      OccursTwice(b, j, k);
      var j', k' := TwoOccurrences(a, b[j]);
      assert false;
    } else {
      SameMembers(a, b, b[j]);
      SameMembers(a, b, b[k]);
      var x :| 0 <= x < |a| && a[x] == b[j];
      var y :| 0 <= y < |a| && a[y] == b[k];
      assert x < y || y < x;
    }
  }

  lemma RearrangedIsWellFormed(a: seq<string>, b: seq<string>, dev: bool)
    requires multiset(a) == multiset(b) && WellFormed(a, dev)
    ensures WellFormed(b, dev)
    ensures forall id, token :: Binds(b, id, token, dev) ==> Binds(a, id, token, dev)
  {
    forall k | 0 <= k < |b| ensures Trim(b[k]) != "" ==> IsGood(b[k], dev) {
      SameMembers(a, b, b[k]);
      var i :| 0 <= i < |a| && a[i] == b[k];
    }
    forall j, k | 0 <= j < k < |b| && IsGood(b[j], dev) && IsGood(b[k], dev)
      ensures PairOf(b[j], dev).0 != PairOf(b[k], dev).0
    {
      GoodEntriesDiffer(a, b, j, k, dev);
    }
    forall id, token | Binds(b, id, token, dev) ensures Binds(a, id, token, dev) {
      var k :| 0 <= k < |b| && IsGood(b[k], dev) && PairOf(b[k], dev) == (id, token);
      SameMembers(a, b, b[k]);
      var i :| 0 <= i < |a| && a[i] == b[k];
      assert IsGood(a[i], dev);
    }
  }

  lemma SameTokens(a: Tokens, b: Tokens)
    requires forall id, token :: Has(a, id, token) <==> Has(b, id, token)
    ensures a == b
  {
    forall id ensures id in a <==> id in b {
      if id in a { assert Has(a, id, a[id]); }
      if id in b { assert Has(b, id, b[id]); }
    }
    forall id | id in a ensures a[id] == b[id] { assert Has(a, id, a[id]); }
  }

  lemma RearrangedLoop(a: seq<string>, b: seq<string>, dev: bool)
    requires multiset(a) == multiset(b)
    ensures Finish(Loop(a, dev)).Ok? <==> Finish(Loop(b, dev)).Ok?
    ensures Finish(Loop(a, dev)).Ok? ==> Finish(Loop(a, dev)) == Finish(Loop(b, dev))
  {
    LoopMeaning(a, dev);
    LoopMeaning(b, dev);
    if WellFormed(a, dev) {
      RearrangedIsWellFormed(a, b, dev);
      RearrangedIsWellFormed(b, a, dev);
      SameTokens(Loop(a, dev).tokens, Loop(b, dev).tokens);
    } else if WellFormed(b, dev) {
      RearrangedIsWellFormed(b, a, dev);
    }
  }

  lemma NoPairsOfBlanks(entries: seq<string>, dev: bool)
    requires WellFormed(entries, dev)
    ensures Loop(entries, dev).tokens == map[] <==> forall k :: 0 <= k < |entries| ==> Trim(entries[k]) == ""
  {
    LoopMeaning(entries, dev);
    var tokens := Loop(entries, dev).tokens;
    if k :| 0 <= k < |entries| && Trim(entries[k]) != "" {
      var (id, token) := PairOf(entries[k], dev);
      assert Binds(entries, id, token, dev);
      assert Has(tokens, id, token);
    }
    if id :| id in tokens {
      assert Has(tokens, id, tokens[id]);
      assert Binds(entries, id, tokens[id], dev);
    }
  }

  /** Every entry that is more than blanks adds either one pair or one error, in order. */
  lemma EveryEntryCounts(entries: seq<string>, last: string, dev: bool)
    ensures
      var before, after := Loop(entries, dev), Loop(entries + [last], dev);
      if Trim(last) == "" then
        after == before
      else if Complaint(Trim(last), dev).Some? then
        after == State(before.tokens, before.errors + [Complaint(Trim(last), dev).value])
      else if PairOf(last, dev).0 in before.tokens then
        after == State(before.tokens, before.errors + [DuplicateId(PairOf(last, dev).0)])
      else
        after == State(before.tokens[PairOf(last, dev).0 := PairOf(last, dev).1], before.errors)
  {
    assert (entries + [last])[..|entries|] == entries;
  }

  /** Which of the four outcomes a text has. */
  lemma OutcomeExactly(raw: string, dev: bool)
    ensures
      var entries := Split(Trim(raw), ',');
      match ParseTokens(raw, dev)
      case Missing => Trim(raw) == ""
      case Errors(_) => Trim(raw) != "" && !WellFormed(entries, dev)
      case NoPairs => Trim(raw) != "" && forall k :: 0 <= k < |entries| ==> Trim(entries[k]) == ""
      case Ok(tokens) => WellFormed(entries, dev) && exists k :: 0 <= k < |entries| && Trim(entries[k]) != ""
  {
    if Trim(raw) != "" {
      var entries := Split(Trim(raw), ',');
      LoopMeaning(entries, dev);
      if WellFormed(entries, dev) {
        NoPairsOfBlanks(entries, dev);
      }
    }
  }

  // ----- printing and parsing back

  /** An item of a printed list: only blanks, or a pair with blanks around its parts. */
  datatype Piece =
    | Blank(text: string)
    | Pair(before: string, id: string, mid: string, afterColon: string, token: string, after: string)

  predicate IsBlank(s: string) { AllSpace(s) }

  function TextOf(p: Piece): string {
    match p
    case Blank(text) => text
    case Pair(before, id, mid, afterColon, token, after) => before + id + mid + ":" + afterColon + token + after
  }

  /** Ids are trimmed, non-empty and free of commas and colons; tokens may hold colons. */
  predicate CleanPiece(p: Piece, dev: bool) {
    match p
    case Blank(text) => IsBlank(text)
    case Pair(before, id, mid, afterColon, token, after) =>
      && IsBlank(before) && IsBlank(mid) && IsBlank(afterColon) && IsBlank(after)
      && id != "" && IsTrimmed(id) && ',' !in id && ':' !in id
      && token != "" && IsTrimmed(token) && ',' !in token && (!dev ==> ByteLength(token) >= MIN_TOKEN)
  }

  lemma BlanksHaveNoMarks(s: string)
    requires AllSpace(s)
    ensures ',' !in s && ':' !in s
  {
  }

  lemma PieceHasNoComma(p: Piece, dev: bool)
    requires CleanPiece(p, dev)
    ensures ',' !in TextOf(p)
  {
    match p
    case Blank(text) => BlanksHaveNoMarks(text);
    case Pair(before, id, mid, afterColon, token, after) =>
      BlanksHaveNoMarks(before);
      BlanksHaveNoMarks(mid);
      BlanksHaveNoMarks(afterColon);
      BlanksHaveNoMarks(after);
  }

  lemma PairIsGood(p: Piece, dev: bool)
    requires p.Pair? && CleanPiece(p, dev)
    ensures IsGood(TextOf(p), dev) && PairOf(TextOf(p), dev) == (p.id, p.token)
  {
    var key, value := p.id + p.mid, p.afterColon + p.token;
    var entry := key + [':'] + value;
    assert entry[0] == p.id[0] && entry[|entry| - 1] == p.token[|p.token| - 1];
    assert TextOf(p) == p.before + entry + p.after;
    TrimBetween(p.before, entry, p.after);
    BlanksHaveNoMarks(p.mid);
    IndexOfIs(key, ':', value);
    assert entry[..|key|] == key && entry[|key| + 1..] == value;
    assert key == "" + p.id + p.mid && value == p.afterColon + p.token + "";
    TrimBetween("", p.id, p.mid);
    TrimBetween(p.afterColon, p.token, "");
  }

  function Texts(pieces: seq<Piece>): (r: seq<string>)
    ensures |r| == |pieces| && forall k :: 0 <= k < |r| ==> r[k] == TextOf(pieces[k])
  {
    if pieces == [] then [] else
      assert pieces == [pieces[0]] + pieces[1..];
      [TextOf(pieces[0])] + Texts(pieces[1..])
  }

  /** The pieces print exactly the map `m`, each id once. */
  ghost predicate Prints(pieces: seq<Piece>, m: Tokens, dev: bool) {
    && (forall k :: 0 <= k < |pieces| ==> CleanPiece(pieces[k], dev))
    && (forall j, k :: 0 <= j < k < |pieces| && pieces[j].Pair? && pieces[k].Pair? ==> pieces[j].id != pieces[k].id)
    && (forall k :: 0 <= k < |pieces| && pieces[k].Pair? ==> Has(m, pieces[k].id, pieces[k].token))
    && (forall id :: id in m ==> exists k :: 0 <= k < |pieces| && pieces[k].Pair? && pieces[k].id == id)
  }

  lemma EntryOf(p: Piece, dev: bool)
    requires CleanPiece(p, dev)
    ensures IsGood(TextOf(p), dev) <==> p.Pair?
    ensures p.Blank? ==> Trim(TextOf(p)) == ""
    ensures p.Pair? ==> PairOf(TextOf(p), dev) == (p.id, p.token)
  {
    if p.Pair? {
      PairIsGood(p, dev);
    } else {
      AllBlank(p.text);
    }
  }

  lemma PrintedIsWellFormed(pieces: seq<Piece>, m: Tokens, dev: bool)
    requires Prints(pieces, m, dev)
    ensures WellFormed(Texts(pieces), dev)
  {
    forall k | 0 <= k < |pieces|
      ensures IsGood(Texts(pieces)[k], dev) <==> pieces[k].Pair?
      ensures pieces[k].Blank? ==> Trim(Texts(pieces)[k]) == ""
      ensures pieces[k].Pair? ==> PairOf(Texts(pieces)[k], dev).0 == pieces[k].id
    {
      EntryOf(pieces[k], dev);
    }
  }

  lemma PrintedBinds(pieces: seq<Piece>, m: Tokens, dev: bool, id: string, token: string)
    requires Prints(pieces, m, dev)
    ensures Has(m, id, token) <==> Binds(Texts(pieces), id, token, dev)
  {
    if Has(m, id, token) {
      var k :| 0 <= k < |pieces| && pieces[k].Pair? && pieces[k].id == id;
      EntryOf(pieces[k], dev);
      assert IsGood(Texts(pieces)[k], dev);
    }
    if Binds(Texts(pieces), id, token, dev) {
      var k :| 0 <= k < |Texts(pieces)| && IsGood(Texts(pieces)[k], dev)
        && PairOf(Texts(pieces)[k], dev) == (id, token);
      EntryOf(pieces[k], dev);
    }
  }

  lemma PrintedLoop(pieces: seq<Piece>, m: Tokens, dev: bool)
    requires Prints(pieces, m, dev)
    ensures Loop(Texts(pieces), dev) == State(m, [])
  {
    PrintedIsWellFormed(pieces, m, dev);
    LoopMeaning(Texts(pieces), dev);
    forall id, token { PrintedBinds(pieces, m, dev, id, token); }
    SameTokens(Loop(Texts(pieces), dev).tokens, m);
  }

  // Trimming the whole list first changes no trimmed entry.

  lemma JoinBlanksBefore(blank: string, first: string, rest: seq<string>)
    ensures Join([blank + first] + rest, ',') == blank + Join([first] + rest, ',')
  {
    assert ([blank + first] + rest)[1..] == rest == ([first] + rest)[1..];
    if rest != [] {
      var tail := [','] + Join(rest, ',');
      assert blank + first + tail == blank + (first + tail);
    }
  }

  ghost predicate NoCommas(parts: seq<string>) { forall k :: 0 <= k < |parts| ==> ',' !in parts[k] }

  lemma SplitBlankFirst(s: string, blank: string, first: string, rest: seq<string>)
    requires ',' !in blank && NoCommas([first] + rest) && s == Join([first] + rest, ',')
    ensures Split(blank + s, ',') == [blank + first] + rest
  {
    JoinBlanksBefore(blank, first, rest);
    assert forall k :: 0 < k < |rest| + 1 ==> ([blank + first] + rest)[k] == ([first] + rest)[k];
    assert ([first] + rest)[0] == first;
    SplitJoin([blank + first] + rest, ',');
  }

  lemma SplitWithBlanksBefore(blank: string, s: string)
    requires ',' !in blank
    ensures Split(blank + s, ',') == [blank + Split(s, ',')[0]] + Split(s, ',')[1..]
  {
    var parts := Split(s, ',');
    SplitPiecesAreClean(s, ',');
    JoinSplit(s, ',');
    assert parts == [parts[0]] + parts[1..];
    SplitBlankFirst(s, blank, parts[0], parts[1..]);
  }

  lemma JoinBlanksAfter(init: seq<string>, last: string, blank: string)
    ensures Join(init + [last + blank], ',') == Join(init + [last], ',') + blank
  {
    if init == [] {
      assert init + [last] == [last] && init + [last + blank] == [last + blank];
    } else {
      JoinAppend(init, last, ',');
      JoinAppend(init, last + blank, ',');
    }
  }

  lemma SplitBlankLast(s: string, blank: string, init: seq<string>, last: string)
    requires ',' !in blank && NoCommas(init + [last]) && s == Join(init + [last], ',')
    ensures Split(s + blank, ',') == init + [last + blank]
  {
    JoinBlanksAfter(init, last, blank);
    assert forall k :: 0 <= k < |init| ==> (init + [last + blank])[k] == (init + [last])[k];
    assert (init + [last])[|init|] == last;
    SplitJoin(init + [last + blank], ',');
  }

  lemma SplitWithBlanksAfter(s: string, blank: string)
    requires ',' !in blank
    ensures
      var parts := Split(s, ',');
      Split(s + blank, ',') == parts[..|parts| - 1] + [parts[|parts| - 1] + blank]
  {
    var parts := Split(s, ',');
    SplitPiecesAreClean(s, ',');
    JoinSplit(s, ',');
    assert parts == parts[..|parts| - 1] + [parts[|parts| - 1]];
    SplitBlankLast(s, blank, parts[..|parts| - 1], parts[|parts| - 1]);
  }

  lemma BlanksAtTheEnds(whole: seq<string>, inner: seq<string>, parts: seq<string>, a: string, b: string)
    requires AllSpace(a) && AllSpace(b) && |parts| >= 1
    requires inner == parts[..|parts| - 1] + [parts[|parts| - 1] + b] && whole == [a + inner[0]] + inner[1..]
    ensures |whole| == |parts| && forall k :: 0 <= k < |whole| ==> Trim(parts[k]) == Trim(whole[k])
  {
    forall k | 0 <= k < |whole| ensures Trim(parts[k]) == Trim(whole[k]) {
      var left := if k == 0 then a else "";
      var right := if k == |whole| - 1 then b else "";
      assert inner[k] == parts[k] + right;
      assert whole[k] == left + inner[k];
      assert whole[k] == left + parts[k] + right;
      TrimIgnoresBlanks(left, parts[k], right);
    }
  }

  /** Blanks around a whole list are blanks around its first and last entries. */
  lemma BlanksAroundTheList(a: string, core: string, b: string)
    requires AllSpace(a) && AllSpace(b)
    ensures
      var whole, parts := Split(a + (core + b), ','), Split(core, ',');
      |whole| == |parts| && forall k :: 0 <= k < |whole| ==> Trim(parts[k]) == Trim(whole[k])
  {
    BlanksHaveNoMarks(a);
    BlanksHaveNoMarks(b);
    SplitWithBlanksBefore(a, core + b);
    SplitWithBlanksAfter(core, b);
    BlanksAtTheEnds(Split(a + (core + b), ','), Split(core + b, ','), Split(core, ','), a, b);
  }

  lemma SameTrimmedEntries(raw: string)
    ensures |Split(Trim(raw), ',')| == |Split(raw, ',')|
    ensures forall k :: 0 <= k < |Split(raw, ',')| ==> Trim(Split(Trim(raw), ',')[k]) == Trim(Split(raw, ',')[k])
  {
    var a := TrimLeftParts(raw);
    var b := TrimRightParts(TrimLeft(raw));
    BlanksAroundTheList(a, Trim(raw), b);
  }

  lemma {:induction false} LoopSeesTrimmed(a: seq<string>, b: seq<string>, dev: bool)
    requires |a| == |b| && forall k :: 0 <= k < |a| ==> Trim(a[k]) == Trim(b[k])
    ensures Loop(a, dev) == Loop(b, dev)
  {
    if a == [] {
    } else {
      LoopSeesTrimmed(a[..|a| - 1], b[..|b| - 1], dev);
    }
  }

  /** Parsing is a left inverse of printing: any non-empty map, printed in any order with extra blanks
      and empty entries, parses to exactly that map. */
  lemma ParsePrinted(pieces: seq<Piece>, m: Tokens, dev: bool)
    requires Prints(pieces, m, dev) && m != map[]
    ensures ParseTokens(Join(Texts(pieces), ','), dev) == Ok(m)
  {
    var raw := Join(Texts(pieces), ',');
    assert pieces != [] by { var id :| id in m; }
    forall k | 0 <= k < |pieces| ensures ',' !in Texts(pieces)[k] { PieceHasNoComma(pieces[k], dev); }
    SplitJoin(Texts(pieces), ',');
    SameTrimmedEntries(raw);
    LoopSeesTrimmed(Split(Trim(raw), ','), Texts(pieces), dev);
    PrintedLoop(pieces, m, dev);
    if Trim(raw) == "" {
      EmptyListHasNoPairs(dev);
    }
  }

  lemma EmptyListHasNoPairs(dev: bool)
    ensures Loop(Split("", ','), dev).tokens == map[]
  {
    assert Split("", ',') == [""];
    assert [""][..0] == [];
    assert Loop([""], dev) == Turn(Loop([], dev), "", dev);
  }

  // ----- order

  lemma ParseSeesTheWholeList(raw: string, dev: bool)
    ensures ParseTokens(raw, dev).Ok? <==> Finish(Loop(Split(raw, ','), dev)).Ok?
    ensures ParseTokens(raw, dev).Ok? ==> ParseTokens(raw, dev) == Finish(Loop(Split(raw, ','), dev))
  {
    SameTrimmedEntries(raw);
    LoopSeesTrimmed(Split(Trim(raw), ','), Split(raw, ','), dev);
    if Trim(raw) == "" {
      EmptyListHasNoPairs(dev);
    }
  }

  /** Two texts with the same entries in another order both fail or both give the same map. */
  lemma OrderDoesNotMatter(raw: string, raw': string, dev: bool)
    requires multiset(Split(raw, ',')) == multiset(Split(raw', ','))
    ensures ParseTokens(raw, dev).Ok? <==> ParseTokens(raw', dev).Ok?
    ensures ParseTokens(raw, dev).Ok? ==> ParseTokens(raw, dev) == ParseTokens(raw', dev)
  {
    ParseSeesTheWholeList(raw, dev);
    ParseSeesTheWholeList(raw', dev);
    RearrangedLoop(Split(raw, ','), Split(raw', ','), dev);
  }

  // ----- the middleware

  /** RequireServiceIdentity: the id header is trimmed, the token header is not. */
  predicate Accepts(tokens: Tokens, idHeader: string, tokenHeader: string) {
    var id := Trim(idHeader);
    |tokens| != 0 && id != "" && id in tokens && tokens[id] != "" && tokenHeader == tokens[id]
  }

  /** Bound ids and tokens are never empty. */
  lemma ParsedPairsAreNotEmpty(raw: string, dev: bool, id: string)
    requires ParseTokens(raw, dev).Ok? && id in ParseTokens(raw, dev).tokens
    ensures id != "" && ParseTokens(raw, dev).tokens[id] != ""
  {
    var entries := Split(Trim(raw), ',');
    LoopMeaning(entries, dev);
    var tokens := ParseTokens(raw, dev).tokens;
    assert Has(tokens, id, tokens[id]);
    assert Binds(entries, id, tokens[id], dev);
  }

  /** Outside dev no token of fewer than 24 bytes is ever bound. */
  lemma BoundTokensAreLong(raw: string, id: string)
    requires ParseTokens(raw, false).Ok? && id in ParseTokens(raw, false).tokens
    ensures ByteLength(ParseTokens(raw, false).tokens[id]) >= 24
  {
    var entries, tokens := Split(Trim(raw), ','), ParseTokens(raw, false).tokens;
    LoopMeaning(entries, false);
    assert Has(tokens, id, tokens[id]);
    assert Binds(entries, id, tokens[id], false);
    var k :| 0 <= k < |entries| && IsGood(entries[k], false) && PairOf(entries[k], false) == (id, tokens[id]);
    GoodExactly(entries[k], false, id, tokens[id]);
  }

  /** With a parsed map the guard accepts exactly the callers whose trimmed id is bound to their token. */
  lemma AcceptsExactlyTheBound(raw: string, dev: bool, idHeader: string, tokenHeader: string)
    requires ParseTokens(raw, dev).Ok?
    ensures Accepts(ParseTokens(raw, dev).tokens, idHeader, tokenHeader) <==>
            Binds(Split(raw, ','), Trim(idHeader), tokenHeader, dev)
  {
    var tokens := ParseTokens(raw, dev).tokens;
    var id := Trim(idHeader);
    SameTrimmedEntries(raw);
    LoopSeesTrimmed(Split(Trim(raw), ','), Split(raw, ','), dev);
    LoopMeaning(Split(raw, ','), dev);
    if id in tokens {
      ParsedPairsAreNotEmpty(raw, dev, id);
    }
    assert Has(tokens, id, tokenHeader) <==> Binds(Split(raw, ','), id, tokenHeader, dev);
  }
}
