/** The identifier step at the start of `saveRecord`: a record without an
    `_id` gets a freshly generated one, and a record without a `uuid` gets
    the site's `view/` URL of its `_id`. The generated id (an MD5 hex digest
    in the source) and the site base URL are parameters. */
module Identifiers {
  import opened PhpValue

  const IdKey := "_id"
  const UuidKey := "uuid"

  /** 32 lower-case hexadecimal digits, the shape of an MD5 digest. */
  predicate IsMd5(s: string) {
    |s| == 32 && forall i :: 0 <= i < |s| ==> ('0' <= s[i] <= '9' || 'a' <= s[i] <= 'f')
  }

  /** The `uuid` given to a record whose `_id` is `id`: the base URL, then
      "view/", then the id as PHP's `.` writes it. */
  function UuidFor(baseUrl: string, id: Value): string {
    baseUrl + "view/" + StringOf(id)
  }

  /** The document after the identifier step; `_id` is filled in first, so
      a derived `uuid` uses the id just assigned (`IdAfter`, which
      `AssignIdsFills` shows is the `_id` of the result). */
  function AssignIds(doc: seq<Entry>, freshId: string, baseUrl: string): seq<Entry> {
    var withId := if IsEmpty(Find(doc, IdKey)) then SetKey(doc, IdKey, Str(freshId)) else doc;
    if IsEmpty(Find(withId, UuidKey)) then SetKey(withId, UuidKey, Str(UuidFor(baseUrl, IdAfter(doc, freshId))))
    else withId
  }

  /** The step as `saveRecord` performs it, on its local copy of the array. */
  method AssignIdsInPlace(record: seq<Entry>, freshId: string, baseUrl: string) returns (doc: seq<Entry>)
    ensures doc == AssignIds(record, freshId, baseUrl)
  {
    doc := record;
    if IsEmpty(Find(doc, IdKey)) {
      doc := SetKey(doc, IdKey, Str(freshId));
    }
    FindSetKeySame(record, IdKey, Str(freshId));
    if IsEmpty(Find(doc, UuidKey)) {
      doc := SetKey(doc, UuidKey, Str(UuidFor(baseUrl, Find(doc, IdKey).value)));
    }
  }

  /** The id the step settles on: the one present, or the fresh one. */
  function IdAfter(doc: seq<Entry>, freshId: string): Value {
    if IsEmpty(Find(doc, IdKey)) then Str(freshId) else Find(doc, IdKey).value
  }

  /** The uuid the step settles on: the one present, or the derived one. */
  function UuidAfter(doc: seq<Entry>, freshId: string, baseUrl: string): Value {
    if IsEmpty(Find(doc, UuidKey)) then Str(UuidFor(baseUrl, IdAfter(doc, freshId))) else Find(doc, UuidKey).value
  }

  /** Whatever the fresh id, the result holds both keys, with the settled
      values. */
  lemma AssignIdsSets(doc: seq<Entry>, freshId: string, baseUrl: string)
    ensures Find(AssignIds(doc, freshId, baseUrl), IdKey) == Some(IdAfter(doc, freshId))
    ensures Find(AssignIds(doc, freshId, baseUrl), UuidKey) == Some(UuidAfter(doc, freshId, baseUrl))
  {
    var withId := if IsEmpty(Find(doc, IdKey)) then SetKey(doc, IdKey, Str(freshId)) else doc;
    if IsEmpty(Find(doc, IdKey)) {
      FindSetKeySame(doc, IdKey, Str(freshId));
      FindSetKeyOther(doc, IdKey, Str(freshId), UuidKey);
    }
    if IsEmpty(Find(withId, UuidKey)) {
      var u := UuidFor(baseUrl, IdAfter(doc, freshId));
      FindSetKeySame(withId, UuidKey, Str(u));
      FindSetKeyOther(withId, UuidKey, Str(u), IdKey);
    }
  }

  lemma Md5NotEmpty(s: string)
    requires IsMd5(s)
    ensures !IsEmptyValue(Str(s))
  {
    assert |s| != |"0"|;
  }

  /** With an MD5-shaped fresh id, both identifiers are non-empty after the
      step: `_id` is the one present or the fresh one, and a missing `uuid`
      is derived from that `_id`. */
  lemma AssignIdsFills(doc: seq<Entry>, freshId: string, baseUrl: string)
    requires IsMd5(freshId)
    ensures var r := AssignIds(doc, freshId, baseUrl);
            && !IsEmpty(Find(r, IdKey)) && !IsEmpty(Find(r, UuidKey))
            && (IsEmpty(Find(doc, IdKey)) ==> Find(r, IdKey) == Some(Str(freshId)))
            && (IsEmpty(Find(doc, UuidKey)) ==> Find(r, UuidKey) == Some(Str(UuidFor(baseUrl, Find(r, IdKey).value))))
  {
    Md5NotEmpty(freshId);
    AssignIdsSets(doc, freshId, baseUrl);
    assert |UuidFor(baseUrl, IdAfter(doc, freshId))| >= |"view/"|;
  }

  /** Identifiers already present are left as they are. */
  lemma AssignIdsKeeps(doc: seq<Entry>, freshId: string, baseUrl: string)
    ensures !IsEmpty(Find(doc, IdKey)) ==> Find(AssignIds(doc, freshId, baseUrl), IdKey) == Find(doc, IdKey)
    ensures !IsEmpty(Find(doc, UuidKey)) ==> Find(AssignIds(doc, freshId, baseUrl), UuidKey) == Find(doc, UuidKey)
  {
    var withId := if IsEmpty(Find(doc, IdKey)) then SetKey(doc, IdKey, Str(freshId)) else doc;
    if IsEmpty(Find(doc, IdKey)) {
      FindSetKeyOther(doc, IdKey, Str(freshId), UuidKey);
    }
    if IsEmpty(Find(withId, UuidKey)) {
      FindSetKeyOther(withId, UuidKey, Str(UuidFor(baseUrl, IdAfter(doc, freshId))), IdKey);
    }
  }

  /** Every other key keeps its value. */
  lemma AssignIdsOthers(doc: seq<Entry>, freshId: string, baseUrl: string, k: string)
    requires k != IdKey && k != UuidKey
    ensures Find(AssignIds(doc, freshId, baseUrl), k) == Find(doc, k)
  {
    var withId := if IsEmpty(Find(doc, IdKey)) then SetKey(doc, IdKey, Str(freshId)) else doc;
    if IsEmpty(Find(doc, IdKey)) {
      FindSetKeyOther(doc, IdKey, Str(freshId), k);
    }
    if IsEmpty(Find(withId, UuidKey)) {
      FindSetKeyOther(withId, UuidKey, Str(UuidFor(baseUrl, IdAfter(doc, freshId))), k);
    }
  }

  /** A record with both identifiers is left exactly as it is. */
  lemma AssignIdsNoop(doc: seq<Entry>, freshId: string, baseUrl: string)
    requires !IsEmpty(Find(doc, IdKey)) && !IsEmpty(Find(doc, UuidKey))
    ensures AssignIds(doc, freshId, baseUrl) == doc
  {
  }

  /** Applying the step twice gives what applying it once gives, whatever
      fresh id and base URL the second application is handed. */
  lemma AssignIdsIdempotent(doc: seq<Entry>, freshId: string, baseUrl: string, freshId': string, baseUrl': string)
    requires IsMd5(freshId)
    ensures AssignIds(AssignIds(doc, freshId, baseUrl), freshId', baseUrl') == AssignIds(doc, freshId, baseUrl)
  {
    AssignIdsFills(doc, freshId, baseUrl);
    AssignIdsNoop(AssignIds(doc, freshId, baseUrl), freshId', baseUrl');
  }

  /** Each missing identifier is appended as a new entry, `_id` before
      `uuid`; an identifier present but empty is overwritten where it
      stands, so every original key keeps its position. */
  lemma AssignIdsLength(doc: seq<Entry>, freshId: string, baseUrl: string)
    ensures var r := AssignIds(doc, freshId, baseUrl);
            && |r| == |doc| + (if Find(doc, IdKey).None? then 1 else 0) + (if Find(doc, UuidKey).None? then 1 else 0)
            && (forall i :: 0 <= i < |doc| ==> r[i].key == doc[i].key)
            && (|doc| < |r| ==> r[|doc|].key == if Find(doc, IdKey).None? then IdKey else UuidKey)
  {
    var withId := if IsEmpty(Find(doc, IdKey)) then SetKey(doc, IdKey, Str(freshId)) else doc;
    if IsEmpty(Find(doc, IdKey)) {
      FindSetKeyOther(doc, IdKey, Str(freshId), UuidKey);
      SetKeyPositions(doc, IdKey, Str(freshId));
    }
    if IsEmpty(Find(withId, UuidKey)) {
      SetKeyPositions(withId, UuidKey, Str(UuidFor(baseUrl, IdAfter(doc, freshId))));
    }
  }
}
