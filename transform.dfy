/** The per-record rules of the dump importer: one decoded JSON line becomes
    one row, or an exception that the import loop counts as an error. */
module Transform {
  import opened Json
  import opened PyStr
  import opened Schema

  /** `str(data.get("domain") or "")`, as far as the host test can tell: a
      falsy domain gives "", a string domain is itself. A truthy value of
      another type prints as text starting with a digit, `-`, `I` (`Infinity`),
      `N` (`NaN`), `T`, `[` or `{`, none of which can start an image host, so
      it is read as the empty string here. */
  function DomainText(data: Record): (d: string)
    ensures !Truthy(Get(data, "domain")) ==> d == ""
    ensures Get(data, "domain").Str? ==> d == Get(data, "domain").s
  {
    var d := Get(data, "domain");
    if d.Str? then d.s else ""
  }

  /** The image test: `post_hint == "image"` or an image-host domain. */
  function HasImage(data: Record): (b: bool)
    ensures Get(data, "post_hint") == Str("image") ==> b
    ensures b ==> Get(data, "post_hint") == Str("image") || (Get(data, "domain").Str? && Truthy(Get(data, "domain")))
  {
    || Get(data, "post_hint") == Str("image")
    || StartsWith(DomainText(data), "i.redd.it")
    || StartsWith(DomainText(data), "i.imgur.com")
  }

  /** `image_url`: `url or None` for an image post, `None` otherwise. */
  function ImageUrl(data: Record): (u: Value)
    ensures u == Null || (HasImage(data) && Truthy(u) && u == Get(data, "url"))
  {
    if HasImage(data) && Truthy(Get(data, "url")) then Get(data, "url") else Null
  }

  /** The stored `selftext`: the record's own when it is truthy; otherwise
      the link url for a non-self post that has one; otherwise `None`. */
  function Selftext(data: Record): (t: Value)
    ensures t == Null || (Truthy(t) && (t == Get(data, "selftext") || t == Get(data, "url")))
  {
    var own := Get(data, "selftext");
    if Truthy(own) then own
    else if !Truthy(Get(data, "is_self")) && Truthy(Get(data, "url")) then Get(data, "url")
    else Null
  }

  /** One line of a submissions dump: `None` when `json.loads` fails or the
      value is not an object (`data.get` raises); a missing `id` is no error
      and gives a NULL id. */
  function SubmissionOf(p: Parsed): (r: Option<SubmissionRow>)
    ensures r.Some? <==> p.Parsed? && p.value.Obj?
    ensures r.Some? ==> SubmissionKey(r.value) == Get(p.value.fields, "id")
  {
    if p.Malformed? || !p.value.Obj? then None
    else
      Some(SubmissionFrom(p.value.fields))
  }

  /** The tuple `import_submissions` appends for a decoded object. */
  function SubmissionFrom(data: Record): (row: SubmissionRow)
    ensures SubmissionKey(row) == Get(data, "id")
    ensures row.imageUrl != Null ==> row.hasImage && row.imageUrl == Get(data, "url")
    ensures row.selftext != Str("")
  {
    SubmissionRow(
      Get(data, "id"), Get(data, "subreddit"), Get(data, "title"), Selftext(data),
      Get(data, "author"), Get(data, "created_utc"), Get(data, "score"),
      Get(data, "num_comments"), Get(data, "is_self"), Get(data, "retrieved_on"),
      Get(data, "stickied"), Get(data, "over_18"), Get(data, "spoiler"),
      Get(data, "locked"), Get(data, "distinguished"), Get(data, "permalink"),
      HasImage(data), ImageUrl(data))
  }

  /** `data.get('link_id', '').replace('t3_', '')`: `None` when the value is
      not a string (`.replace` raises). */
  function LinkId(data: Record): (r: Option<string>)
    ensures r.Some? <==> GetOr(data, "link_id", Str("")).Str?
    ensures "link_id" !in data ==> r == Some("")
    ensures r.Some? ==> |r.value| <= |GetOr(data, "link_id", Str("")).s|
  {
    var raw := GetOr(data, "link_id", Str(""));
    if raw.Str? then Some(RemoveAll(raw.s, "t3_")) else None
  }

  /** One line of a comments dump: `None` when `json.loads` fails, the value
      is not an object, `link_id` is not a string, or `data['id']` raises
      `KeyError`. */
  function CommentOf(p: Parsed): (r: Option<CommentRow>)
    ensures r.Some? ==> p.Parsed? && p.value.Obj? && "id" in p.value.fields
    ensures r.Some? ==> CommentKey(r.value) == p.value.fields["id"] && Some(r.value.linkId) == LinkId(p.value.fields)
  {
    if p.Malformed? || !p.value.Obj? then None
    else
      var data := p.value.fields;
      var link := LinkId(data);
      if link.None? || "id" !in data then None
      else
        Some(CommentRow(
          data["id"], Get(data, "subreddit"), Get(data, "body"), Get(data, "author"),
          Get(data, "created_utc"), Get(data, "score"), link.value,
          GetOr(data, "parent_id", Str("")), Get(data, "retrieved_on"),
          Get(data, "stickied"), Get(data, "distinguished"), Get(data, "controversiality")))
  }

  /** `has_image` is true exactly for a post hint of "image" or a domain
      starting with an image host, a missing or falsy domain counting as
      the empty string (which starts with neither). */
  lemma HasImageSpec(data: Record)
    ensures HasImage(data) <==>
      Get(data, "post_hint") == Str("image")
      || (exists s :: Get(data, "domain") == Str(s) && ("i.redd.it" <= s || "i.imgur.com" <= s))
    ensures !Truthy(Get(data, "domain")) ==> (HasImage(data) <==> Get(data, "post_hint") == Str("image"))
  {
    var d := Get(data, "domain");
    if d.Str? {
      assert d == Str(d.s);
    }
  }

  /** `image_url` is set only on image posts and then is the truthy url;
      an image post with a falsy url gets `None`. */
  lemma ImageUrlSpec(data: Record)
    ensures ImageUrl(data) != Null ==> HasImage(data) && ImageUrl(data) == Get(data, "url") && Truthy(ImageUrl(data))
    ensures HasImage(data) && Truthy(Get(data, "url")) ==> ImageUrl(data) == Get(data, "url")
    ensures !HasImage(data) || !Truthy(Get(data, "url")) ==> ImageUrl(data) == Null
  {
  }

  /** The image columns read only `post_hint`, `domain` and `url`: two
      records that agree on those three fields get the same `has_image` and
      `image_url`. */
  lemma ImageFields(data: Record, other: Record)
    requires Get(data, "post_hint") == Get(other, "post_hint")
    requires Get(data, "domain") == Get(other, "domain")
    requires Get(data, "url") == Get(other, "url")
    ensures HasImage(data) == HasImage(other)
    ensures ImageUrl(data) == ImageUrl(other)
  {
  }

  /** Setting any other field of a record leaves both image columns as
      they were. */
  lemma ImageOtherField(data: Record, k: string, v: Value)
    requires k != "post_hint" && k != "domain" && k != "url"
    ensures HasImage(data[k := v]) == HasImage(data)
    ensures ImageUrl(data[k := v]) == ImageUrl(data)
  {
    ImageFields(data[k := v], data);
  }

  /** The stored `selftext` is never an empty string or other falsy value:
      it is truthy or NULL, and when it is not the record's own it is the
      link url of a non-self post. */
  lemma SelftextSpec(data: Record)
    ensures var r := Selftext(data); r == Null || Truthy(r)
    ensures Truthy(Get(data, "selftext")) ==> Selftext(data) == Get(data, "selftext")
    ensures !Truthy(Get(data, "selftext")) && Selftext(data) != Null ==>
      Selftext(data) == Get(data, "url") && !Truthy(Get(data, "is_self"))
    ensures !Truthy(Get(data, "selftext")) && (Truthy(Get(data, "is_self")) || !Truthy(Get(data, "url"))) ==>
      Selftext(data) == Null
  {
  }

  /** Replaying the derivation over a record whose `selftext` has already
      been derived gives the same value again: the stored row is a fixed
      point of the rule, so re-importing a stored row changes nothing. */
  lemma SelftextStable(data: Record)
    ensures var again := data["selftext" := Selftext(data)];
      Selftext(again) == Selftext(data) && HasImage(again) == HasImage(data) && ImageUrl(again) == ImageUrl(data)
  {
    var again := data["selftext" := Selftext(data)];
    assert Get(again, "selftext") == Selftext(data);
    assert Get(again, "url") == Get(data, "url") && Get(again, "is_self") == Get(data, "is_self");
    assert Get(again, "domain") == Get(data, "domain") && Get(again, "post_hint") == Get(data, "post_hint");
  }

  /** Which submission lines become rows: every decoded object, whatever
      fields it lacks. */
  lemma SubmissionAccepted(p: Parsed)
    ensures SubmissionOf(p).Some? <==> p.Parsed? && p.value.Obj?
    ensures SubmissionOf(p).Some? && "id" !in p.value.fields ==> SubmissionOf(p).value.id == Null
  {
  }

  /** Which comment lines become rows: a decoded object with an `id` field
      whose `link_id` is absent or a string. */
  lemma CommentAccepted(p: Parsed)
    ensures CommentOf(p).Some? <==>
      p.Parsed? && p.value.Obj? && "id" in p.value.fields
      && GetOr(p.value.fields, "link_id", Str("")).Str?
  {
  }

  /** The stored references of a comment: `link_id` with every "t3_" removed
      (the empty string when absent) and `parent_id` unchanged (the empty
      string when absent). */
  lemma CommentReferences(p: Parsed)
    requires CommentOf(p).Some?
    ensures var data := p.value.fields; var row := CommentOf(p).value;
      && ("link_id" !in data ==> row.linkId == "")
      && ("link_id" in data ==> row.linkId == RemoveAll(data["link_id"].s, "t3_"))
      && row.parentId == GetOr(data, "parent_id", Str(""))
      && row.id == data["id"]
  {
  }

  /** For the usual `t3_<id>` form the prefix is removed and the id kept. */
  lemma {:induction false} LinkPrefixStripped(id: string)
    requires forall i :: !OccursAt(id, "t3_", i)
    ensures RemoveAll("t3_" + id, "t3_") == id
  {
    assert ("t3_" + id)[..3] == "t3_";
    assert ("t3_" + id)[3..] == id;
    RemoveAllUnchanged(id, "t3_");
  }

  /** An id that does not contain "t3_" is stored unchanged. */
  lemma LinkIdUnchanged(s: string)
    ensures RemoveAll(s, "t3_") == s <==> forall i :: !OccursAt(s, "t3_", i)
  {
    RemoveAllUnchanged(s, "t3_");
  }

  /** `replace` removes every occurrence, not only a leading one. */
  lemma LinkIdNotPrefixOnly()
    ensures RemoveAll("abct3_", "t3_") == "abc"
  {
    assert "abct3_"[..3] == "abc" != "t3_";
    assert "bct3_"[..3] == "bct" != "t3_";
    assert "ct3_"[..3] == "ct3" != "t3_";
    assert "t3_"[..3] == "t3_";
    assert "abct3_"[1..] == "bct3_" && "bct3_"[1..] == "ct3_" && "ct3_"[1..] == "t3_" && "t3_"[3..] == "";
  }

  /** The removal can itself join a new "t3_", so applying it again changes
      the result: it is not idempotent. */
  lemma LinkIdNotIdempotent()
    ensures RemoveAll("tt3_3_", "t3_") == "t3_" && RemoveAll("t3_", "t3_") == ""
  {
    assert "t3_"[..3] == "t3_" && "t3_"[3..] == "";
    assert "tt3_3_"[..3] == "tt3" != "t3_" && "tt3_3_"[1..] == "t3_3_";
    assert "t3_3_"[..3] == "t3_" && "t3_3_"[3..] == "3_";
    assert "t" + "" == "t";
  }

  /** Concrete cases: an image post on i.redd.it keeps
      its url as `image_url`; an empty link post stores its url as text; an
      empty self post stores NULL. */
  lemma DerivationExamples()
    ensures var d := map["post_hint" := Str("image"), "is_self" := Bool(false), "url" := Str("http://i.redd.it/x.jpg")];
      HasImage(d) && ImageUrl(d) == Str("http://i.redd.it/x.jpg")
    ensures var d := map["selftext" := Str(""), "is_self" := Bool(false), "url" := Str("http://example.com")];
      Selftext(d) == Str("http://example.com")
    ensures var d := map["selftext" := Str(""), "is_self" := Bool(true), "url" := Str("http://example.com")];
      Selftext(d) == Null
  {
  }
}
