/**
  The messages of wf4/src/influence_maximization.cpp: partial sets one after the
  other, and maps of counter removals, as little-endian words of eight bytes. Sets
  and maps are written in whatever order they are enumerated.
 */
module Wire {
  import opened Basics

  type Byte = x: nat | x < 256
  type Word = x: nat | x < 0x1_0000_0000_0000_0000

  // ---------- Words as bytes ----------

  function WordBytes(w: nat, k: nat): (r: seq<Byte>)
    ensures |r| == k
  {
    if k == 0 then [] else [w % 256] + WordBytes(w / 256, k - 1)
  }

  function BytesWord(b: seq<Byte>): (r: nat)
    ensures r < Limit(|b|)
  {
    if b == [] then 0 else b[0] + 256 * BytesWord(b[1..])
  }

  ghost function Limit(k: nat): nat {
    if k == 0 then 1 else 256 * Limit(k - 1)
  }

  lemma LimitOfEight()
    ensures Limit(8) == 0x1_0000_0000_0000_0000
  {
    assert Limit(4) == 0x1_0000_0000;
  }

  lemma {:induction false} WordRoundTrip(w: nat, k: nat)
    requires w < Limit(k)
    ensures BytesWord(WordBytes(w, k)) == w
  {
    if k > 0 {
      WordRoundTrip(w / 256, k - 1);
    }
  }

  /** The least significant byte comes first. */
  lemma {:induction false} LittleEndian(w: nat, k: nat, i: nat)
    requires i < k
    ensures Limit(i) > 0 && WordBytes(w, k)[i] == w / Limit(i) % 256
  {
    if i > 0 {
      LittleEndian(w / 256, k - 1, i - 1);
      DivideTwice(w, Limit(i - 1));
    }
  }

  lemma DivideTwice(w: nat, x: nat)
    requires x > 0
    ensures w / 256 / x == w / (256 * x)
  {
    var q, r := w / (256 * x), w % (256 * x);
    var low := r / 256;
    assert w / 256 == q * x + low && 0 <= low < x by {
      assert w == 256 * (q * x) + r;
    }
    Quotient(q, x, low);
  }

  lemma Quotient(q: nat, x: nat, low: nat)
    requires low < x
    ensures (q * x + low) / x == q
  {
    var d := (q * x + low) / x - q;
    assert d * x == low - (q * x + low) % x;
  }

  lemma EightBytes(w: Word)
    ensures BytesWord(WordBytes(w, 8)) == w
  {
    LimitOfEight();
    WordRoundTrip(w, 8);
  }

  function ToBytes(words: seq<Word>): (r: seq<Byte>)
    ensures |r| == 8 * |words|
  {
    if words == [] then [] else WordBytes(words[0], 8) + ToBytes(words[1..])
  }

  function FromBytes(bytes: seq<Byte>): seq<Word> {
    if |bytes| < 8 then []
    else
      LimitOfEight();
      [BytesWord(bytes[..8])] + FromBytes(bytes[8..])
  }

  lemma {:induction false} BytesRoundTrip(words: seq<Word>)
    ensures FromBytes(ToBytes(words)) == words
  {
    if words != [] {
      var first, rest := WordBytes(words[0], 8), ToBytes(words[1..]);
      assert (first + rest)[..8] == first && (first + rest)[8..] == rest;
      EightBytes(words[0]);
      BytesRoundTrip(words[1..]);
    }
  }

  // ---------- Partial sets ----------

  datatype PartialSet = PartialSet(id: Word, owner: Word, reached: set<Word>, frontier: set<Word>)

  ghost predicate Fits(s: PartialSet) {
    |s.reached| < 0x1_0000_0000_0000_0000 && |s.frontier| < 0x1_0000_0000_0000_0000
  }

  /** The list has exactly the members of the set, each once. */
  ghost predicate Enumerates(list: seq<Word>, s: set<Word>) {
    |list| == |s| && (forall x :: x in list <==> x in s) && forall i, j :: 0 <= i < j < |list| ==> list[i] != list[j]
  }

  ghost predicate Encodes(words: seq<Word>, s: PartialSet) {
    Fits(s) && exists r: seq<Word>, f: seq<Word> :: Enumerates(r, s.reached) && Enumerates(f, s.frontier) && words == Layout(s, r, f)
  }

  ghost function Layout(s: PartialSet, r: seq<Word>, f: seq<Word>): seq<Word>
    requires Fits(s)
  {
    [s.id, s.owner, |s.reached|, |s.frontier|] + r + f
  }

  /** The encodings of all sets, one after the other. */
  ghost predicate EncodesAll(words: seq<Word>, sets: seq<PartialSet>) {
    if sets == [] then words == []
    else exists k: nat :: k <= |words| && Encodes(words[..k], sets[0]) && EncodesAll(words[k..], sets[1..])
  }

  ghost function Members(list: seq<Word>): set<Word> {
    set x | x in list
  }

  /** The first set in the words and what follows it; nothing when the words end too soon. */
  ghost function DecodeSet(words: seq<Word>): Option<(PartialSet, seq<Word>)> {
    if |words| < 4 then None
    else
      var m: nat, n: nat := words[2], words[3];
      if |words| < 4 + m + n then None
      else
        var r, f := words[4..4 + m], words[4 + m..4 + m + n];
        Some((PartialSet(words[0], words[1], Members(r), Members(f)), words[4 + m + n..]))
  }

  ghost function DecodeSets(words: seq<Word>): Option<seq<PartialSet>>
    decreases |words|
  {
    if words == [] then Some([])
    else
      match DecodeSet(words)
      case None => None
      case Some((s, rest)) =>
        match DecodeSets(rest)
        case None => None
        case Some(sets) => Some([s] + sets)
  }

  /** Reading back an encoding followed by anything gives the set, whatever order it was written in. */
  lemma DecodeEncoded(words: seq<Word>, k: nat, s: PartialSet)
    requires k <= |words| && Encodes(words[..k], s)
    ensures DecodeSet(words) == Some((s, words[k..])) && k >= 4
  {
    var r: seq<Word>, f: seq<Word> :| Enumerates(r, s.reached) && Enumerates(f, s.frontier) && words[..k] == Layout(s, r, f);
    assert words == words[..k] + words[k..];
    DecodeLayout(s, r, f, words[k..]);
  }

  lemma DecodeLayout(s: PartialSet, r: seq<Word>, f: seq<Word>, rest: seq<Word>)
    requires Fits(s) && Enumerates(r, s.reached) && Enumerates(f, s.frontier)
    ensures DecodeSet(Layout(s, r, f) + rest) == Some((s, rest))
  {
    var head: seq<Word> := [s.id, s.owner, |s.reached|, |s.frontier|];
    var words := head + r + f + rest;
    assert words == Layout(s, r, f) + rest;
    assert words[0] == s.id && words[1] == s.owner && words[2] == |r| && words[3] == |f|;
    SliceMiddle(head, r, f, rest);
    assert Members(r) == s.reached && Members(f) == s.frontier;
  }

  lemma SliceMiddle(a: seq<Word>, r: seq<Word>, f: seq<Word>, rest: seq<Word>)
    ensures (a + r + f + rest)[|a|..|a| + |r|] == r
    ensures (a + r + f + rest)[|a| + |r|..|a| + |r| + |f|] == f
    ensures (a + r + f + rest)[|a| + |r| + |f|..] == rest
  {
  }

  /** A concatenation of any number of encoded sets decodes to the same sequence. */
  lemma {:induction false} SetsRoundTrip(words: seq<Word>, sets: seq<PartialSet>)
    requires EncodesAll(words, sets)
    ensures DecodeSets(words) == Some(sets)
    ensures |words| >= 4 * |sets|
    decreases |sets|
  {
    if sets != [] {
      var k: nat :| k <= |words| && Encodes(words[..k], sets[0]) && EncodesAll(words[k..], sets[1..]);
      DecodeEncoded(words, k, sets[0]);
      SetsRoundTrip(words[k..], sets[1..]);
      assert [sets[0]] + sets[1..] == sets;
    }
  }

  /** A message carries these sets: their encodings, or a single byte when there are none. */
  ghost predicate SetsMessage(message: seq<Byte>, sets: seq<PartialSet>) {
    if sets == [] then message == ['a' as int]
    else exists words: seq<Word> :: EncodesAll(words, sets) && message == ToBytes(words)
  }

  /** What the receiver makes of a message. */
  ghost function ReadSets(message: seq<Byte>): Option<seq<PartialSet>> {
    if |message| < 16 then Some([]) else DecodeSets(FromBytes(message))
  }

  /** Every message is read back as the sets it carries; the size test tells empty messages from others. */
  lemma MessageRoundTrip(message: seq<Byte>, sets: seq<PartialSet>)
    requires SetsMessage(message, sets)
    ensures ReadSets(message) == Some(sets)
    ensures |message| < 16 <==> sets == []
  {
    if sets != [] {
      var words: seq<Word> :| EncodesAll(words, sets) && message == ToBytes(words);
      SetsRoundTrip(words, sets);
      BytesRoundTrip(words);
    }
  }

  lemma Regroup<T>(a: seq<T>, k: nat, b: seq<T>)
    requires k <= |a|
    ensures a[..k] + (a[k..] + b) == a + b
  {
  }

  lemma FirstLength(words: seq<Word>, sets: seq<PartialSet>) returns (k: nat)
    requires EncodesAll(words, sets) && sets != []
    ensures k <= |words| && Encodes(words[..k], sets[0]) && EncodesAll(words[k..], sets[1..])
  {
    k :| k <= |words| && Encodes(words[..k], sets[0]) && EncodesAll(words[k..], sets[1..]);
  }

  lemma EncodesCons(first: seq<Word>, s: PartialSet, words: seq<Word>, sets: seq<PartialSet>)
    requires Encodes(first, s) && EncodesAll(words, sets)
    ensures EncodesAll(first + words, [s] + sets)
  {
    hide Encodes;
    var k := |first|;
    assert (first + words)[..k] == first && (first + words)[k..] == words;
    assert ([s] + sets)[1..] == sets;
  }

  lemma {:induction false} EncodesAppend(words: seq<Word>, sets: seq<PartialSet>, more: seq<Word>, s: PartialSet)
    requires EncodesAll(words, sets) && Encodes(more, s)
    ensures EncodesAll(words + more, sets + [s])
    decreases |sets|
  {
    if sets == [] {
      EncodesCons(more, s, [], []);
      assert words + more == more + [] && sets + [s] == [s] + [];
    } else {
      var k := FirstLength(words, sets);
      hide *;
      EncodesAppend(words[k..], sets[1..], more, s);
      EncodesCons(words[..k], sets[0], words[k..] + more, sets[1..] + [s]);
      Regroup(words, k, more);
      Regroup(sets, 1, [s]);
      assert sets[..1] == [sets[0]];
    }
  }

  lemma {:induction false} BytesAppend(a: seq<Word>, b: seq<Word>)
    ensures ToBytes(a + b) == ToBytes(a) + ToBytes(b)
  {
    if a == [] {
      assert a + b == b;
    } else {
      assert (a + b)[1..] == a[1..] + b;
      BytesAppend(a[1..], b);
    }
  }

  /** The members of a set in some order. */
  method Enumerate(s: set<Word>) returns (list: seq<Word>)
    ensures Enumerates(list, s)
  {
    list := [];
    var rest := s;
    while rest != {}
      invariant rest <= s && |list| + |rest| == |s|
      invariant forall x :: x in list <==> x in s && x !in rest
      invariant forall i, j :: 0 <= i < j < |list| ==> list[i] != list[j]
    {
      var x :| x in rest;
      list := list + [x];
      rest := rest - {x};
    }
  }

  /** Number, owner, the two sizes, then the members of the set and of its frontier in some order. */
  ghost predicate Appended(buffer: seq<Byte>, s: PartialSet, buffer': seq<Byte>)
    requires Fits(s)
  {
    exists r: seq<Word>, f: seq<Word> :: Written(buffer, s, r, f, buffer')
  }

  ghost predicate Written(buffer: seq<Byte>, s: PartialSet, r: seq<Word>, f: seq<Word>, buffer': seq<Byte>)
    requires Fits(s)
  {
    && Enumerates(r, s.reached) && Enumerates(f, s.frontier)
    && buffer' == buffer + ToBytes([s.id, s.owner, |s.reached|, |s.frontier|] + r + f)
  }

  /** Appends a set to the buffer. */
  method Serialize(s: PartialSet, buffer: seq<Byte>, ghost words: seq<Word>, ghost sets: seq<PartialSet>)
    returns (buffer': seq<Byte>, ghost words': seq<Word>)
    requires Fits(s) && EncodesAll(words, sets) && buffer == ToBytes(words)
    ensures EncodesAll(words', sets + [s]) && buffer' == ToBytes(words')
    ensures Appended(buffer, s, buffer')
  {
    var r := Enumerate(s.reached);
    var f := Enumerate(s.frontier);
    var data: seq<Word> := [s.id, s.owner, |s.reached|, |s.frontier|] + r + f;
    assert Encodes(data, s) by { assert data == Layout(s, r, f); }
    EncodesAppend(words, sets, data, s);
    BytesAppend(words, data);
    words' := words + data;
    buffer' := buffer + ToBytes(data);
    assert Written(buffer, s, r, f, buffer');
  }

  /** The message for one host. */
  method SendSets(sets: seq<PartialSet>) returns (message: seq<Byte>)
    requires forall i :: 0 <= i < |sets| ==> Fits(sets[i])
    ensures SetsMessage(message, sets)
  {
    hide Appended;
    message := [];
    ghost var words: seq<Word> := [];
    for i := 0 to |sets|
      invariant EncodesAll(words, sets[..i]) && message == ToBytes(words)
    {
      message, words := Serialize(sets[i], message, words, sets[..i]);
      assert sets[..i + 1] == sets[..i] + [sets[i]];
    }
    assert sets[..|sets|] == sets;
    if sets != [] {
      SetsRoundTrip(words, sets);
    }
    if |message| == 0 {
      message := ['a' as int];
    }
  }

  /** Takes the first set off the words; nothing when they end too soon. */
  method Deserialize(words: seq<Word>) returns (r: Option<(PartialSet, seq<Word>)>)
    ensures r == DecodeSet(words)
  {
    if |words| < 4 {
      return None;
    }
    var m: nat, n: nat := words[2], words[3];
    if |words| < 4 + m + n {
      return None;
    }
    var reached: set<Word>, frontier: set<Word> := {}, {};
    for i := 0 to m
      invariant reached == Members(words[4..4 + i])
    {
      assert words[4..4 + i + 1] == words[4..4 + i] + [words[4 + i]];
      reached := reached + {words[4 + i]};
    }
    for i := 0 to n
      invariant frontier == Members(words[4 + m..4 + m + i])
    {
      assert words[4 + m..4 + m + i + 1] == words[4 + m..4 + m + i] + [words[4 + m + i]];
      frontier := frontier + {words[4 + m + i]};
    }
    return Some((PartialSet(words[0], words[1], reached, frontier), words[4 + m + n..]));
  }

  /** Reads the sets off a message until it is used up. */
  method ReceiveSets(message: seq<Byte>) returns (r: Option<seq<PartialSet>>)
    ensures r == ReadSets(message)
  {
    if |message| < 16 {
      return Some([]);
    }
    var rest := FromBytes(message);
    ghost var words := rest;
    var sets: seq<PartialSet> := [];
    assert DecodeSets(words).Some? ==> sets + DecodeSets(words).value == DecodeSets(words).value;
    while |rest| > 0
      invariant DecodeSets(words) == After(sets, DecodeSets(rest))
      decreases |rest|
    {
      var first := Deserialize(rest);
      if first.None? {
        return None;
      }
      AfterOne(sets, first.value.0, DecodeSets(first.value.1));
      sets, rest := sets + [first.value.0], first.value.1;
    }
    assert sets + [] == sets;
    return Some(sets);
  }

  /** The sets read so far and those still to be read. */
  ghost function After(sets: seq<PartialSet>, more: Option<seq<PartialSet>>): Option<seq<PartialSet>> {
    match more
    case None => None
    case Some(s) => Some(sets + s)
  }

  lemma AfterOne(sets: seq<PartialSet>, s: PartialSet, more: Option<seq<PartialSet>>)
    ensures After(sets + [s], more) == After(sets, After([s], more))
  {
    if more.Some? {
      assert sets + [s] + more.value == sets + ([s] + more.value);
    }
  }

  // ---------- Removal maps ----------

  /** The pairs of the map in some order. */
  ghost predicate ListsMap(pairs: seq<Word>, m: map<Word, Word>)
    decreases |pairs|
  {
    if |pairs| < 2 then pairs == [] && m == map[]
    else pairs[0] in m && pairs[1] == m[pairs[0]] && ListsMap(pairs[2..], m - {pairs[0]})
  }

  ghost predicate EncodesMap(words: seq<Word>, m: map<Word, Word>) {
    |words| > 0 && words[0] == |m| && ListsMap(words[1..], m)
  }

  /** The first `size` pairs, as the receiver walks them. */
  ghost function ReadPairs(pairs: seq<Word>, size: nat): map<Word, Word>
    requires |pairs| >= 2 * size
  {
    if size == 0 then map[] else ReadPairs(pairs[2..], size - 1)[pairs[0] := pairs[1]]
  }

  lemma {:induction false} PairsRoundTrip(pairs: seq<Word>, m: map<Word, Word>)
    requires ListsMap(pairs, m)
    ensures |pairs| == 2 * |m| && ReadPairs(pairs, |m|) == m
    decreases |pairs|
  {
    if |pairs| >= 2 {
      var rest := m - {pairs[0]};
      MapSize(m, rest, pairs[0]);
      PairsRoundTrip(pairs[2..], rest);
      assert rest[pairs[0] := pairs[1]] == m;
    }
  }

  lemma MapSize(m: map<Word, Word>, rest: map<Word, Word>, k: Word)
    requires k in m && rest == m - {k}
    ensures |m| == |rest| + 1
  {
    assert m.Keys == rest.Keys + {k};
    assert |m| == |m.Keys| && |rest| == |rest.Keys|;
  }

  /** The removal map is read back as it was written, and the size test tells whether it is empty. */
  lemma MapRoundTrip(words: seq<Word>, m: map<Word, Word>)
    requires EncodesMap(words, m)
    ensures FromBytes(ToBytes(words)) == words && words != [] && words[0] == |m|
    ensures |words| == 1 + 2 * |m| && ReadPairs(words[1..], |m|) == m
    ensures |ToBytes(words)| < 16 <==> m == map[]
  {
    BytesRoundTrip(words);
    PairsRoundTrip(words[1..], m);
  }

  /** Writes the map in any order of its entries. */
  method SerializeMap(updates: map<Word, Word>) returns (message: seq<Byte>, ghost words: seq<Word>)
    requires |updates| < 0x1_0000_0000_0000_0000
    ensures EncodesMap(words, updates) && message == ToBytes(words)
  {
    var data: seq<Word> := [];
    var rest := updates;
    assert forall more: seq<Word> :: data + more == more;
    while rest != map[]
      invariant forall more: seq<Word> :: ListsMap(more, rest) ==> ListsMap(data + more, updates)
      decreases |rest|
    {
      var k :| k in rest;
      MapSize(rest, rest - {k}, k);
      ghost var before, left := data, rest - {k};
      data := data + [k, rest[k]];
      forall more: seq<Word> | ListsMap(more, left)
        ensures ListsMap(data + more, updates)
      {
        var longer: seq<Word> := [k, rest[k]] + more;
        assert longer[2..] == more;
        assert ListsMap(longer, rest);
        assert data + more == before + longer;
      }
      rest := rest - {k};
    }
    assert data + [] == data;
    assert ListsMap([], rest);
    var all: seq<Word> := [|updates|] + data;
    assert all[1..] == data;
    words := all;
    message := ToBytes(all);
  }
}
