/**
 * The part of the gtree encoding the handshake relies on, kept abstract:
 * a tree is an unsigned number, a string, or a tuple of trees. The
 * decoders below are the ones the handshake code instantiates
 * (`encoding<std::string>`, `encoding<std::vector<std::string>>`,
 * `encoding<std::pair<A, B>>`); they fail on a tree of the wrong shape.
 */
module GTree {
  import opened Wrappers

  datatype Tree = UInt(n: nat) | Str(s: string) | Tuple(items: seq<Tree>)

  /** `encoding<std::pair<A, B>>`: a tuple of the two encodings. */
  function Pair(first: Tree, second: Tree): Tree {
    Tuple([first, second])
  }

  /** `decoding<std::string>`. */
  function DecodeString(t: Tree): (r: Result<string, string>)
    ensures r.Ok? <==> t.Str?
    ensures r.Ok? ==> Str(r.value) == t
  {
    if t.Str? then Ok(t.s) else Err("expected a string")
  }

  predicate AllStrings(items: seq<Tree>) {
    forall i :: 0 <= i < |items| ==> items[i].Str?
  }

  /** `encoding<std::vector<std::string>>`: one string child per element. */
  function EncodeStrings(v: seq<string>): (t: Tree)
    ensures t.Tuple? && |t.items| == |v| && AllStrings(t.items)
    ensures forall i :: 0 <= i < |v| ==> t.items[i] == Str(v[i])
  {
    Tuple(seq(|v|, i requires 0 <= i < |v| => Str(v[i])))
  }

  /** `decoding<std::vector<std::string>>`. */
  function DecodeStrings(t: Tree): (r: Result<seq<string>, string>)
    ensures r.Ok? <==> t.Tuple? && AllStrings(t.items)
    ensures r.Ok? ==> |r.value| == |t.items| &&
                      forall i :: 0 <= i < |r.value| ==> t.items[i] == Str(r.value[i])
  {
    if t.Tuple? && AllStrings(t.items) then Ok(seq(|t.items|, i requires 0 <= i < |t.items| => t.items[i].s))
    else Err("expected a sequence of strings")
  }

  /** The two vector codecs are inverse to each other, in both directions. */
  lemma StringsRoundTrip(v: seq<string>, t: Tree)
    ensures DecodeStrings(EncodeStrings(v)) == Ok(v)
    ensures DecodeStrings(t).Ok? ==> EncodeStrings(DecodeStrings(t).value) == t
  {
    var r := DecodeStrings(EncodeStrings(v));
    assert r.value == v;
    if DecodeStrings(t).Ok? {
      assert EncodeStrings(DecodeStrings(t).value).items == t.items;
    }
  }
}
