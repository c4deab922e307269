// The text a mutant's id is hashed from, and the collector that numbers equal mutants.
module MutantIdentity {
  import opened Wrappers

  datatype MutantTuple = MutantTuple(
    fileName: string, mutatorName: string, originalCode: string, replacementCode: string)

  datatype Identity = Identity(tuple: MutantTuple, ordinal: nat)

  function Digit(d: nat): char
    requires d < 10
  {
    '0' + d as char
  }

  function Decimal(n: nat): string {
    if n < 10 then [Digit(n)] else Decimal(n / 10) + [Digit(n % 10)]
  }

  function LengthPrefixed(value: string): string {
    Decimal(|value|) + ":" + value
  }

  function Encoded(fields: seq<string>): string {
    if fields == [] then "" else LengthPrefixed(fields[0]) + Encoded(fields[1..])
  }

  function TupleFields(tuple: MutantTuple): seq<string> {
    [tuple.fileName, tuple.mutatorName, tuple.originalCode, tuple.replacementCode]
  }

  function MutantTupleKey(tuple: MutantTuple): string {
    Encoded(TupleFields(tuple))
  }

  // What the hash is taken of.
  function HashedText(identity: Identity): string {
    Encoded(TupleFields(identity.tuple) + [Decimal(identity.ordinal)])
  }

  // ---- The encoding read back ----

  predicate IsDigit(c: char) {
    '0' <= c <= '9'
  }

  function DigitValue(c: char): nat
    requires IsDigit(c)
  {
    (c - '0') as nat
  }

  ghost predicate AllDigits(digits: string) {
    forall i :: 0 <= i < |digits| ==> IsDigit(digits[i])
  }

  // A number up to its colon, and what follows.
  function ReadLength(text: string, sofar: nat): Option<(nat, string)> {
    if text == "" then None
    else if text[0] == ':' then Some((sofar, text[1..]))
    else if IsDigit(text[0]) then ReadLength(text[1..], 10 * sofar + DigitValue(text[0]))
    else None
  }

  lemma {:induction false} ReadLengthShortens(text: string, sofar: nat)
    ensures ReadLength(text, sofar).Some? ==> |ReadLength(text, sofar).value.1| < |text|
  {
    if text != "" && text[0] != ':' && IsDigit(text[0]) {
      ReadLengthShortens(text[1..], 10 * sofar + DigitValue(text[0]));
    }
  }

  function Decoded(text: string): Option<seq<string>>
    decreases |text|
  {
    if text == "" then Some([])
    else
      ReadLengthShortens(text, 0);
      match ReadLength(text, 0)
      case None => None
      case Some((length, rest)) =>
        if length > |rest| then None
        else match Decoded(rest[length..]) case None => None case Some(fields) => Some([rest[..length]] + fields)
  }

  ghost function Value(digits: string, sofar: nat): nat
    requires AllDigits(digits)
  {
    if digits == "" then sofar else Value(digits[1..], 10 * sofar + DigitValue(digits[0]))
  }

  lemma {:induction false} ValueOfMore(digits: string, d: nat, sofar: nat)
    requires d < 10 && AllDigits(digits)
    ensures Value(digits + [Digit(d)], sofar) == 10 * Value(digits, sofar) + d
  {
    if digits == "" {
      assert "" + [Digit(d)] == [Digit(d)];
    } else {
      assert (digits + [Digit(d)])[1..] == digits[1..] + [Digit(d)];
      ValueOfMore(digits[1..], d, 10 * sofar + DigitValue(digits[0]));
    }
  }

  lemma {:induction false} DecimalIsRead(n: nat)
    ensures AllDigits(Decimal(n))
    ensures Value(Decimal(n), 0) == n
  {
    if n < 10 {
      assert Value([Digit(n)][1..], n) == n;
    } else {
      DecimalIsRead(n / 10);
      ValueOfMore(Decimal(n / 10), n % 10, 0);
    }
  }

  lemma {:induction false} LengthIsRead(digits: string, rest: string, sofar: nat)
    requires AllDigits(digits)
    ensures ReadLength(digits + ":" + rest, sofar) == Some((Value(digits, sofar), rest))
  {
    if digits == "" {
      assert (":" + rest)[1..] == rest;
    } else {
      assert (digits + ":" + rest)[1..] == digits[1..] + ":" + rest;
      LengthIsRead(digits[1..], rest, 10 * sofar + DigitValue(digits[0]));
    }
  }

  lemma {:induction false} FieldIsRead(value: string, rest: string)
    requires Decoded(rest).Some?
    ensures Decoded(Decimal(|value|) + ":" + (value + rest)) == Some([value] + Decoded(rest).value)
  {
    DecimalIsRead(|value|);
    LengthIsRead(Decimal(|value|), value + rest, 0);
    assert (value + rest)[..|value|] == value && (value + rest)[|value|..] == rest;
  }

  lemma {:induction false} FirstField(fields: seq<string>)
    requires fields != []
    ensures Encoded(fields) == Decimal(|fields[0]|) + ":" + (fields[0] + Encoded(fields[1..]))
  {
  }

  /** Every list of fields can be read back from its encoding. */
  lemma {:induction false} EncodingRoundTrip(fields: seq<string>)
    ensures Decoded(Encoded(fields)) == Some(fields)
  {
    if fields != [] {
      EncodingRoundTrip(fields[1..]);
      FirstField(fields);
      FieldIsRead(fields[0], Encoded(fields[1..]));
      assert fields == [fields[0]] + fields[1..];
    }
  }

  /** Two lists of fields, of whatever lengths, with one encoding are equal. */
  lemma {:induction false} EncodingIsInjective(a: seq<string>, b: seq<string>)
    requires Encoded(a) == Encoded(b)
    ensures a == b
  {
    EncodingRoundTrip(a);
    EncodingRoundTrip(b);
  }

  lemma KeysIdentifyTuples(a: MutantTuple, b: MutantTuple)
    ensures MutantTupleKey(a) == MutantTupleKey(b) <==> a == b
  {
    if MutantTupleKey(a) == MutantTupleKey(b) {
      EncodingIsInjective(TupleFields(a), TupleFields(b));
      assert TupleFields(a)[0] == TupleFields(b)[0] && TupleFields(a)[1] == TupleFields(b)[1];
      assert TupleFields(a)[2] == TupleFields(b)[2] && TupleFields(a)[3] == TupleFields(b)[3];
    }
  }

  lemma HashedTextsIdentify(a: Identity, b: Identity)
    ensures HashedText(a) == HashedText(b) <==> a == b
  {
    if HashedText(a) == HashedText(b) {
      var x, y := TupleFields(a.tuple) + [Decimal(a.ordinal)], TupleFields(b.tuple) + [Decimal(b.ordinal)];
      EncodingIsInjective(x, y);
      assert x[0] == y[0] && x[1] == y[1] && x[2] == y[2] && x[3] == y[3] && x[4] == y[4];
      DecimalIsRead(a.ordinal);
      DecimalIsRead(b.ordinal);
    }
  }

  /** The hashed text reads back as the file, the mutator, the original, the replacement and the ordinal, in that order;
      the key of a tuple as the first four. */
  lemma HashedTextHoldsFields(identity: Identity)
    ensures
      var t := identity.tuple;
      && Decoded(HashedText(identity))
         == Some([t.fileName, t.mutatorName, t.originalCode, t.replacementCode, Decimal(identity.ordinal)])
      && Decoded(MutantTupleKey(t)) == Some([t.fileName, t.mutatorName, t.originalCode, t.replacementCode])
  {
    var t := identity.tuple;
    EncodingRoundTrip(TupleFields(t) + [Decimal(identity.ordinal)]);
    EncodingRoundTrip(TupleFields(t));
    assert TupleFields(t) + [Decimal(identity.ordinal)]
      == [t.fileName, t.mutatorName, t.originalCode, t.replacementCode, Decimal(identity.ordinal)];
  }

  /** A number is written in decimal, without a leading zero. */
  lemma {:induction false} DecimalIsExact(n: nat)
    ensures AllDigits(Decimal(n)) && Value(Decimal(n), 0) == n && Decimal(n) != ""
    ensures Decimal(n)[0] == '0' ==> Decimal(n) == "0"
  {
    DecimalIsRead(n);
    NoLeadingZero(n);
  }

  lemma {:induction false} NoLeadingZero(n: nat)
    ensures Decimal(n) != "" && (n > 0 ==> Decimal(n)[0] != '0')
  {
    if n >= 10 {
      NoLeadingZero(n / 10);
    }
  }

  // ---- The collector ----

  function Count(asked: seq<MutantTuple>, tuple: MutantTuple): nat {
    if asked == [] then 0
    else Count(asked[..|asked| - 1], tuple) + if asked[|asked| - 1] == tuple then 1 else 0
  }

  class MutantCollector<Mutant> {
    var mutants: seq<Mutant>
    var occurrences: map<string, nat>
    ghost var asked: seq<MutantTuple>

    // The table holds, under each tuple's key, how often that tuple was asked for.
    ghost predicate Valid()
      reads this
    {
      forall tuple: MutantTuple ::
        Count(asked, tuple) == if MutantTupleKey(tuple) in occurrences then occurrences[MutantTupleKey(tuple)] else 0
    }

    constructor ()
      ensures Valid() && asked == [] && mutants == []
    {
      mutants, occurrences, asked := [], map[], [];
    }

    method OrdinalOf(tuple: MutantTuple) returns (ordinal: nat)
      requires Valid()
      modifies this`occurrences, this`asked
      ensures Valid() && asked == old(asked) + [tuple]
      ensures ordinal == Count(old(asked), tuple)
    {
      var key := MutantTupleKey(tuple);
      ordinal := if key in occurrences then occurrences[key] else 0;
      occurrences := occurrences[key := ordinal + 1];
      asked := asked + [tuple];
      assert asked[..|asked| - 1] == old(asked);
      forall other: MutantTuple ensures MutantTupleKey(other) == key <==> other == tuple {
        KeysIdentifyTuples(other, tuple);
      }
    }

    method Append(added: seq<Mutant>)
      requires Valid()
      modifies this`mutants
      ensures Valid() && mutants == old(mutants) + added
    {
      mutants := mutants + added;
    }
  }

  // The identities a run of calls gives out: each tuple with the number of earlier calls for it.
  function Identities(asked: seq<MutantTuple>): (identities: seq<Identity>)
    ensures |identities| == |asked|
    ensures forall i :: 0 <= i < |asked| ==> identities[i] == Identity(asked[i], Count(asked[..i], asked[i]))
  {
    seq(|asked|, i requires 0 <= i < |asked| => Identity(asked[i], Count(asked[..i], asked[i])))
  }

  lemma {:induction false} LaterCountsMore(asked: seq<MutantTuple>, i: nat, j: nat)
    requires i < j <= |asked|
    ensures Count(asked[..i], asked[i]) < Count(asked[..j], asked[i])
  {
    assert asked[..j][..j - 1] == asked[..j - 1];
    if i < j - 1 {
      LaterCountsMore(asked, i, j - 1);
    }
  }

  lemma {:induction false} EarlierOrdinals(asked: seq<MutantTuple>, tuple: MutantTuple, n: nat)
    requires n < Count(asked, tuple)
    ensures exists i :: 0 <= i < |asked| && Identities(asked)[i] == Identity(tuple, n)
  {
    var front, last := asked[..|asked| - 1], asked[|asked| - 1];
    if n < Count(front, tuple) {
      EarlierOrdinals(front, tuple, n);
      var i :| 0 <= i < |front| && Identities(front)[i] == Identity(tuple, n);
      assert front[..i] == asked[..i];
      assert Identities(asked)[i] == Identity(tuple, n);
    } else {
      assert Identities(asked)[|asked| - 1] == Identity(tuple, n);
    }
  }

  /** Over any run of calls, equal tuples get the ordinals 0, 1, 2 and so on in call order, and no two calls hash the
      same text. */
  lemma {:induction false} NoTwoMutantsShareHashedText(asked: seq<MutantTuple>, i: nat, j: nat)
    requires i < j < |asked|
    ensures HashedText(Identities(asked)[i]) != HashedText(Identities(asked)[j])
    ensures asked[i] == asked[j] ==> Identities(asked)[i].ordinal < Identities(asked)[j].ordinal
    ensures forall n :: 0 <= n < Count(asked, asked[i]) ==>
      exists k :: 0 <= k < |asked| && Identities(asked)[k] == Identity(asked[i], n)
  {
    HashedTextsIdentify(Identities(asked)[i], Identities(asked)[j]);
    LaterCountsMore(asked, i, j);
    forall n | 0 <= n < Count(asked, asked[i])
      ensures exists k :: 0 <= k < |asked| && Identities(asked)[k] == Identity(asked[i], n)
    {
      EarlierOrdinals(asked, asked[i], n);
    }
  }
}
