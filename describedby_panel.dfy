/**
 * The list logic of the image block's "Accessibility" side panel
 * (src/visua11y-infographic/tools/extend-image.js): the attribute string is
 * split into tokens when the panel loads and joined back when it saves, the
 * anchors of the document's blocks are collected as suggestions, and a
 * clicked token is looked up among them.
 */
module DescribedByPanel {
  import opened Wrappers
  import opened JsValues
  import opened Blocks

  /** `s.split(' ')`: the pieces between single spaces, empty pieces included. */
  function Split(s: string): (r: seq<string>)
    ensures |r| >= 1
    ensures forall t :: t in r ==> ' ' !in t
  {
    if s == [] then [""]
    else if s[0] == ' ' then [""] + Split(s[1..])
    else
      var rest := Split(s[1..]);
      [[s[0]] + rest[0]] + rest[1..]
  }

  /** `tokens.join(' ')`. */
  function Join(tokens: seq<string>): string {
    if |tokens| == 0 then ""
    else if |tokens| == 1 then tokens[0]
    else tokens[0] + " " + Join(tokens[1..])
  }

  /** The panel's initial tokens: `ariaDescribedby ? ariaDescribedby.split(' ') : []`. */
  function LoadTokens(ariaDescribedby: string): (r: seq<string>)
    ensures r == [] <==> ariaDescribedby == ""
  {
    if ariaDescribedby == "" then [] else Split(ariaDescribedby)
  }


  lemma JoinOfSplitPrepended(c: char, s: string)
    requires c != ' '
    ensures Join(Split([c] + s)) == [c] + Join(Split(s))
  {
  }

  /** Joining the pieces of a split gives back the string. */
  lemma {:induction false} JoinSplit(s: string)
    ensures Join(Split(s)) == s
  {
    if s != [] {
      JoinSplit(s[1..]);
      if s[0] == ' ' {
        assert Split(s) == [""] + Split(s[1..]);
      } else {
        JoinOfSplitPrepended(s[0], s[1..]);
        assert [s[0]] + s[1..] == s;
      }
    }
  }

  /** Splitting a token without spaces, followed by a space and more text. */
  lemma {:induction false} SplitToken(t: string, rest: string)
    requires ' ' !in t
    ensures Split(t + " " + rest) == [t] + Split(rest)
    ensures Split(t) == [t]
  {
    if t != [] {
      SplitToken(t[1..], rest);
      assert (t + " " + rest)[1..] == t[1..] + " " + rest;
      assert [t[0]] + t[1..] == t;
    } else {
      assert t + " " + rest == [' '] + rest;
    }
  }

  /** Splitting the join of tokens without spaces gives back the tokens. */
  lemma {:induction false} SplitJoin(tokens: seq<string>)
    requires |tokens| >= 1
    requires forall i :: 0 <= i < |tokens| ==> ' ' !in tokens[i]
    ensures Split(Join(tokens)) == tokens
  {
    if |tokens| == 1 {
      SplitToken(tokens[0], "");
    } else {
      SplitJoin(tokens[1..]);
      SplitToken(tokens[0], Join(tokens[1..]));
    }
  }

  /**
   * Saving the tokens and loading the panel again gives back the same tokens,
   * for every token list without spaces except `[""]`, which saves as the empty
   * string and so loads as no tokens at all.
   */
  lemma JoinLoadRoundTrip(tokens: seq<string>)
    ensures (forall i :: 0 <= i < |tokens| ==> ' ' !in tokens[i]) ==>
      (LoadTokens(Join(tokens)) == tokens <==> tokens != [""])
  {
    if |tokens| >= 1 && forall i :: 0 <= i < |tokens| ==> ' ' !in tokens[i] {
      SplitJoin(tokens);
      if Join(tokens) == "" {
        assert Split(Join(tokens)) == [""];
      }
    }
  }

  /**
   * `handleSave`: the attribute string saved from the panel's tokens,
   * `tokens.join(' ')`. Tokens without spaces load back unchanged, except
   * `[""]`, which saves as the empty string and so loads as no tokens.
   */
  function SaveTokens(tokens: seq<string>): (r: string)
    ensures (forall i :: 0 <= i < |tokens| ==> ' ' !in tokens[i]) ==>
      (LoadTokens(r) == tokens <==> tokens != [""])
  {
    JoinLoadRoundTrip(tokens);
    Join(tokens)
  }

  /** Loading the attribute and saving the tokens unchanged gives back the attribute. */
  lemma AttributeRoundTrip(ariaDescribedby: string)
    ensures SaveTokens(LoadTokens(ariaDescribedby)) == ariaDescribedby
  {
    JoinSplit(ariaDescribedby);
  }

  /** One suggestion: `{ anchor: block.attributes?.anchor, id: block.clientId }`. */
  datatype AnchorEntry = AnchorEntry(anchor: Value, id: string)

  /** `block.attributes?.anchor`. */
  function AnchorOf(b: Block): Value {
    Prop(b.attributes, "anchor")
  }

  /** The blocks' anchors paired with their client ids, keeping only truthy anchors. */
  function CollectAnchors(blocks: seq<Block>): (r: seq<AnchorEntry>)
    ensures |r| <= |blocks|
    ensures forall k :: 0 <= k < |r| ==> Truthy(r[k].anchor)
  {
    if blocks == [] then []
    else
      var b := blocks[0];
      (if Truthy(AnchorOf(b)) then [AnchorEntry(AnchorOf(b), b.clientId)] else [])
        + CollectAnchors(blocks[1..])
  }

  /** Collection distributes over concatenation, so it keeps block order. */
  lemma {:induction false} CollectAnchorsAppend(xs: seq<Block>, ys: seq<Block>)
    ensures CollectAnchors(xs + ys) == CollectAnchors(xs) + CollectAnchors(ys)
  {
    if xs == [] {
      assert xs + ys == ys;
    } else {
      assert (xs + ys)[0] == xs[0];
      assert (xs + ys)[1..] == xs[1..] + ys;
      CollectAnchorsAppend(xs[1..], ys);
    }
  }

  /** An entry is collected exactly when some block has that truthy anchor and that client id. */
  lemma {:induction false} CollectAnchorsMembers(blocks: seq<Block>, e: AnchorEntry)
    ensures e in CollectAnchors(blocks) <==>
      exists i :: 0 <= i < |blocks| && Truthy(AnchorOf(blocks[i])) && e == AnchorEntry(AnchorOf(blocks[i]), blocks[i].clientId)
  {
    if blocks != [] {
      CollectAnchorsMembers(blocks[1..], e);
      if exists i :: 1 <= i < |blocks| && Truthy(AnchorOf(blocks[i])) && e == AnchorEntry(AnchorOf(blocks[i]), blocks[i].clientId) {
        var i :| 1 <= i < |blocks| && Truthy(AnchorOf(blocks[i])) && e == AnchorEntry(AnchorOf(blocks[i]), blocks[i].clientId);
        assert blocks[1..][i - 1] == blocks[i];
      }
    }
  }

  /** `allAnchors.find(block => block.anchor === anchor)`. */
  function FindByAnchor(entries: seq<AnchorEntry>, token: string): (r: Option<AnchorEntry>)
    ensures r.None? <==> forall k :: 0 <= k < |entries| ==> entries[k].anchor != Str(token)
    ensures r.Some? ==> exists k :: (
      && 0 <= k < |entries|
      && entries[k] == r.value
      && r.value.anchor == Str(token)
      && forall j :: 0 <= j < k ==> entries[j].anchor != Str(token))
  {
    if entries == [] then None
    else if entries[0].anchor == Str(token) then Some(entries[0])
    else
      var r := FindByAnchor(entries[1..], token);
      if r.Some? then
        ghost var k :| 0 <= k < |entries[1..]| && entries[1..][k] == r.value
          && r.value.anchor == Str(token) && forall j :: 0 <= j < k ==> entries[1..][j].anchor != Str(token);
        assert entries[k + 1] == r.value;
        r
      else
        r
  }

  /**
   * Looking a token up among the collected anchors finds the first block, in
   * list order, whose anchor attribute is that token; an empty token or a
   * token no block carries finds nothing.
   */
  lemma {:induction false} FirstAnchorMatch(blocks: seq<Block>, token: string)
    ensures FindByAnchor(CollectAnchors(blocks), token).None? <==>
      token == "" || forall i :: 0 <= i < |blocks| ==> AnchorOf(blocks[i]) != Str(token)
    ensures FindByAnchor(CollectAnchors(blocks), token).Some? ==> exists i :: (
      && 0 <= i < |blocks|
      && FindByAnchor(CollectAnchors(blocks), token).value.id == blocks[i].clientId
      && AnchorOf(blocks[i]) == Str(token)
      && forall j :: 0 <= j < i ==> AnchorOf(blocks[j]) != Str(token))
  {
    if blocks != [] {
      FirstAnchorMatch(blocks[1..], token);
      var b := blocks[0];
      var rest := CollectAnchors(blocks[1..]);
      if AnchorOf(b) == Str(token) && token != "" {
        assert CollectAnchors(blocks) == [AnchorEntry(AnchorOf(b), b.clientId)] + rest;
      } else {
        assert FindByAnchor(CollectAnchors(blocks), token) == FindByAnchor(rest, token) by {
          if Truthy(AnchorOf(b)) {
            assert CollectAnchors(blocks)[1..] == rest;
          } else {
            assert CollectAnchors(blocks) == rest;
          }
        }
        if FindByAnchor(CollectAnchors(blocks), token).Some? {
          var i :| 0 <= i < |blocks[1..]|
            && FindByAnchor(CollectAnchors(blocks[1..]), token).value.id == blocks[1..][i].clientId
            && AnchorOf(blocks[1..][i]) == Str(token)
            && forall j :: 0 <= j < i ==> AnchorOf(blocks[1..][j]) != Str(token);
          assert blocks[i + 1] == blocks[1..][i];
        }
      }
    }
  }

  /**
   * `handleAnchorClick`: the client id of the block a click on `token`
   * selects, which is the first block, in list order, whose anchor attribute
   * is that token; an empty token or a token no block carries selects nothing.
   */
  function AnchorClickTarget(blocks: seq<Block>, token: string): (r: Option<string>)
    ensures r.None? <==> token == "" || forall i :: 0 <= i < |blocks| ==> AnchorOf(blocks[i]) != Str(token)
    ensures r.Some? ==> exists i :: (
      && 0 <= i < |blocks|
      && r.value == blocks[i].clientId
      && AnchorOf(blocks[i]) == Str(token)
      && forall j :: 0 <= j < i ==> AnchorOf(blocks[j]) != Str(token))
  {
    FirstAnchorMatch(blocks, token);
    match FindByAnchor(CollectAnchors(blocks), token)
    case None => None
    case Some(entry) => Some(entry.id)
  }

}
