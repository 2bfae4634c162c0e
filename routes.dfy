/** The state-changing routes of the web application: tagging and untagging
    a fileset, and deleting a fileset.  The tag table is a sequence of rows;
    a lookup by label finds the first row with that label. */
module Routes {
  import opened Wrappers
  import opened Sorting
  import opened Seqs
  import opened Model
  import Storage

  const KeyError := "KeyError"
  const TypeError := "TypeError"
  const NoResultFound := "NoResultFound"

  /** A tag with the ids of the filesets it holds, in association order. */
  datatype TagRow = TagRow(id: int, name: string, filesets: seq<int>)

  /** The tag table and the id the next new tag receives. */
  datatype Store = Store(tags: seq<TagRow>, nextId: int)

  /** The JSON body of a tag or untag request; an absent key and a JSON
      null are both `None`. */
  datatype TagRequest = TagRequest(filesetId: Option<int>, tagId: Option<int>, tagLabel: Option<string>)

  /** What a route answers: an abort with status 400, the tag's label and
      id, an empty JSON object, or an exception. */
  datatype Reply = BadRequest | Tagged(name: string, id: int) | Empty | Raised(error: string)

  /** Tag ids and labels are unique, every id is below the next one, and
      every tag holds each fileset at most once.  A tag may hold none: the
      sanity check job removes filesets from its `invalid` tag without
      deleting the tag. */
  predicate ValidStore(s: Store)
  {
    && (forall i, j :: 0 <= i < j < |s.tags| ==> s.tags[i].id != s.tags[j].id && s.tags[i].name != s.tags[j].name)
    && (forall i :: 0 <= i < |s.tags| ==> s.tags[i].id < s.nextId)
    && (forall i :: 0 <= i < |s.tags| ==> Distinct(s.tags[i].filesets))
  }

  /** The truth value of `req.get('tag_id')`. */
  predicate GivenId(x: Option<int>) { x.Some? && x.value != 0 }

  /** The truth value of `req.get('tag_label')`. */
  predicate GivenLabel(x: Option<string>) { x.Some? && x.value != "" }

  function FindId(tags: seq<TagRow>, id: int): (r: Option<nat>)
    ensures r.None? <==> forall j :: 0 <= j < |tags| ==> tags[j].id != id
    ensures r.Some? ==> r.value < |tags| && tags[r.value].id == id
    ensures r.Some? ==> forall j :: 0 <= j < r.value ==> tags[j].id != id
  {
    if |tags| == 0 then None
    else if tags[0].id == id then Some(0)
    else match FindId(tags[1..], id)
      case None => None
      case Some(i) => Some(i + 1)
  }

  function FindLabel(tags: seq<TagRow>, text: string): (r: Option<nat>)
    ensures r.None? <==> forall j :: 0 <= j < |tags| ==> tags[j].name != text
    ensures r.Some? ==> r.value < |tags| && tags[r.value].name == text
    ensures r.Some? ==> forall j :: 0 <= j < r.value ==> tags[j].name != text
  {
    if |tags| == 0 then None
    else if tags[0].name == text then Some(0)
    else match FindLabel(tags[1..], text)
      case None => None
      case Some(i) => Some(i + 1)
  }

  /** The tag a request names: by id when one is given, otherwise by label. */
  function Lookup(tags: seq<TagRow>, r: TagRequest): Option<nat>
  {
    if GivenId(r.tagId) then FindId(tags, r.tagId.value)
    else if GivenLabel(r.tagLabel) then FindLabel(tags, r.tagLabel.value)
    else None
  }

  /** `tag.filesets.remove(x)`: the first occurrence goes. */
  function Remove(s: seq<int>, x: int): (r: seq<int>)
    ensures multiset(r) == multiset(s) - multiset{x}
  {
    if |s| == 0 then []
    else if s[0] == x then
      assert s == [s[0]] + s[1..];
      s[1..]
    else
      assert s == [s[0]] + s[1..];
      [s[0]] + Remove(s[1..], x)
  }

  /** The tag at `i` holds the fileset afterwards, appended only if absent. */
  function Attach(s: Store, i: nat, fid: int): (Store, Reply)
    requires i < |s.tags|
  {
    var t := s.tags[i];
    var t2 := if fid in t.filesets then t else t.(filesets := t.filesets + [fid]);
    (s.(tags := s.tags[i := t2]), Tagged(t.name, t.id))
  }

  /** The `_tag` route. */
  function TagSpec(s: Store, req: Option<TagRequest>, known: set<int>): (Store, Reply)
  {
    if req.None? || req.value.filesetId.None? || req.value.filesetId.value !in known then (s, BadRequest)
    else
      var r := req.value;
      var fid := r.filesetId.value;
      if GivenId(r.tagId) then
        match FindId(s.tags, r.tagId.value)
        case None => (s, BadRequest)
        case Some(i) => Attach(s, i, fid)
      else if GivenLabel(r.tagLabel) then
        match FindLabel(s.tags, r.tagLabel.value)
        case Some(i) => Attach(s, i, fid)
        case None =>
          (Store(s.tags + [TagRow(s.nextId, r.tagLabel.value, [fid])], s.nextId + 1), Tagged(r.tagLabel.value, s.nextId))
      else (s, BadRequest)
  }

  /** The tag at `i` no longer holds the fileset, and is deleted when that
      leaves it empty; nothing changes when it did not hold the fileset. */
  function Detach(s: Store, i: nat, fid: int): Store
    requires i < |s.tags|
  {
    var t := s.tags[i];
    if fid !in t.filesets then s
    else
      var rest := Remove(t.filesets, fid);
      if |rest| > 0 then s.(tags := s.tags[i := t.(filesets := rest)])
      else s.(tags := s.tags[..i] + s.tags[i + 1..])
  }

  /** The `_untag` route: a body that is not JSON or lacks the fileset id
      raises, as indexing it does. */
  function UntagSpec(s: Store, req: Option<TagRequest>, known: set<int>): (Store, Reply)
  {
    if req.None? then (s, Raised(TypeError))
    else if req.value.filesetId.None? then (s, Raised(KeyError))
    else if req.value.filesetId.value !in known then (s, BadRequest)
    else match Lookup(s.tags, req.value)
      case None => (s, BadRequest)
      case Some(i) => (Detach(s, i, req.value.filesetId.value), Empty)
  }

  /** A tag request is refused exactly when the body is missing, the
      fileset is unknown, the given id names no tag, or neither an id nor a
      label is given; a refused request changes nothing, an accepted one
      leaves the named tag holding the fileset. */
  lemma TagOutcome(s: Store, req: Option<TagRequest>, known: set<int>)
    ensures var (s1, reply) := TagSpec(s, req, known);
      && (reply == BadRequest <==>
            (|| req.None? || req.value.filesetId.None? || req.value.filesetId.value !in known
             || (GivenId(req.value.tagId) && FindId(s.tags, req.value.tagId.value).None?)
             || (!GivenId(req.value.tagId) && !GivenLabel(req.value.tagLabel))))
      && (reply == BadRequest ==> s1 == s)
      && (reply != BadRequest ==> reply.Tagged?)
      && (reply != BadRequest ==>
            exists i :: 0 <= i < |s1.tags| && s1.tags[i].id == reply.id && s1.tags[i].name == reply.name &&
                        req.value.filesetId.value in s1.tags[i].filesets)
  {
    var (s1, reply) := TagSpec(s, req, known);
    if reply != BadRequest {
      var r := req.value;
      var fid := r.filesetId.value;
      var i := if GivenId(r.tagId) then FindId(s.tags, r.tagId.value).value
               else if FindLabel(s.tags, r.tagLabel.value).Some? then FindLabel(s.tags, r.tagLabel.value).value
               else |s.tags|;
      assert s1.tags[i].id == reply.id && fid in s1.tags[i].filesets;
    }
  }

  /** Both routes keep the tag table valid. */
  lemma TagKeepsValid(s: Store, req: Option<TagRequest>, known: set<int>)
    requires ValidStore(s)
    ensures ValidStore(TagSpec(s, req, known).0)
  {
    var s1 := TagSpec(s, req, known).0;
    if s1 != s {
      var r := req.value;
      var fid := r.filesetId.value;
      if GivenId(r.tagId) || FindLabel(s.tags, r.tagLabel.value).Some? {
        var i := if GivenId(r.tagId) then FindId(s.tags, r.tagId.value).value else FindLabel(s.tags, r.tagLabel.value).value;
        AttachKeepsValid(s, i, fid);
      }
    }
  }

  lemma AttachKeepsValid(s: Store, i: nat, fid: int)
    requires ValidStore(s) && i < |s.tags|
    ensures ValidStore(Attach(s, i, fid).0)
  {
    var t := s.tags[i];
    if fid !in t.filesets {
      var f := t.filesets + [fid];
      assert Distinct(f) by {
        forall a, b | 0 <= a < b < |f|
          ensures f[a] != f[b]
        {
          if b == |f| - 1 {
            assert f[a] in t.filesets;
          }
        }
      }
    }
  }

  lemma UntagKeepsValid(s: Store, req: Option<TagRequest>, known: set<int>)
    requires ValidStore(s)
    ensures ValidStore(UntagSpec(s, req, known).0)
  {
    if req.Some? && req.value.filesetId.Some? && req.value.filesetId.value in known && Lookup(s.tags, req.value).Some? {
      DetachKeepsValid(s, Lookup(s.tags, req.value).value, req.value.filesetId.value);
    }
  }

  lemma DetachKeepsValid(s: Store, i: nat, fid: int)
    requires ValidStore(s) && i < |s.tags|
    ensures ValidStore(Detach(s, i, fid))
  {
    var t := s.tags[i];
    if fid in t.filesets {
      var rest := Remove(t.filesets, fid);
      if |rest| > 0 {
        RemoveDistinct(t.filesets, fid);
        ValidUpdate(s, i, rest);
      } else {
        ValidDrop(s, i);
      }
    }
  }

  /** A tag's fileset list replaced by one without repeats keeps the store
      valid. */
  lemma ValidUpdate(s: Store, i: nat, rest: seq<int>)
    requires ValidStore(s) && i < |s.tags| && Distinct(rest)
    ensures ValidStore(s.(tags := s.tags[i := s.tags[i].(filesets := rest)]))
  {
  }

  /** Dropping a tag keeps the store valid, and every remaining tag was in
      the store. */
  lemma ValidDrop(s: Store, i: nat)
    requires ValidStore(s) && i < |s.tags|
    ensures ValidStore(s.(tags := s.tags[..i] + s.tags[i + 1..]))
    ensures forall t :: t in s.tags[..i] + s.tags[i + 1..] ==> t in s.tags
  {
    var tags := s.tags[..i] + s.tags[i + 1..];
    assert forall a :: 0 <= a < |tags| ==> tags[a] == s.tags[if a < i then a else a + 1];
  }

  /** Removing adds nothing. */
  lemma RemoveAbsent(t: seq<int>, x: int, h: int)
    requires h !in t
    ensures h !in Remove(t, x)
  {
    assert multiset(t)[h] == 0;
    assert multiset(Remove(t, x))[h] == 0;
  }

  /** Removing from a list without repeats keeps it without repeats and
      removes the value altogether. */
  lemma {:induction false} RemoveDistinct(s: seq<int>, x: int)
    requires Distinct(s)
    ensures Distinct(Remove(s, x)) && x !in Remove(s, x)
  {
    if |s| > 0 {
      var t := s[1..];
      DistinctTail(s);
      RemoveDistinct(t, x);
      if s[0] != x {
        RemoveAbsent(t, x, s[0]);
        DistinctCons(s[0], Remove(t, x));
      }
    }
  }

  /** The first tag with a given id or label is found. */
  lemma FindIdIs(tags: seq<TagRow>, id: int, k: nat)
    requires k < |tags| && tags[k].id == id && forall j :: 0 <= j < k ==> tags[j].id != id
    ensures FindId(tags, id) == Some(k)
  {
  }

  lemma FindLabelIs(tags: seq<TagRow>, text: string, k: nat)
    requires k < |tags| && tags[k].name == text && forall j :: 0 <= j < k ==> tags[j].name != text
    ensures FindLabel(tags, text) == Some(k)
  {
  }

  /** Tagging is idempotent: repeating a request changes nothing more and
      gives the same answer. */
  lemma TagIdempotent(s: Store, req: Option<TagRequest>, known: set<int>)
    ensures TagSpec(TagSpec(s, req, known).0, req, known) == TagSpec(s, req, known)
  {
    var (s1, reply) := TagSpec(s, req, known);
    if reply != BadRequest {
      var r := req.value;
      var fid := r.filesetId.value;
      if GivenId(r.tagId) {
        var i := FindId(s.tags, r.tagId.value).value;
        assert (s1, reply) == Attach(s, i, fid);
        AttachKeepsKeys(s, i, fid);
        FindIdIs(s1.tags, r.tagId.value, i);
        AttachTwice(s, i, fid);
      } else if FindLabel(s.tags, r.tagLabel.value).Some? {
        var i := FindLabel(s.tags, r.tagLabel.value).value;
        assert (s1, reply) == Attach(s, i, fid);
        AttachKeepsKeys(s, i, fid);
        FindLabelIs(s1.tags, r.tagLabel.value, i);
        AttachTwice(s, i, fid);
      } else {
        FindLabelIs(s1.tags, r.tagLabel.value, |s.tags|);
        assert s1.tags[|s.tags| := s1.tags[|s.tags|]] == s1.tags;
      }
    }
  }

  lemma AttachKeepsKeys(s: Store, i: nat, fid: int)
    requires i < |s.tags|
    ensures |Attach(s, i, fid).0.tags| == |s.tags|
    ensures forall j :: 0 <= j < |s.tags| ==>
      Attach(s, i, fid).0.tags[j].id == s.tags[j].id && Attach(s, i, fid).0.tags[j].name == s.tags[j].name
  {
  }

  lemma AttachTwice(s: Store, i: nat, fid: int)
    requires i < |s.tags|
    ensures Attach(Attach(s, i, fid).0, i, fid) == Attach(s, i, fid)
  {
    var s1 := Attach(s, i, fid).0;
    assert fid in s1.tags[i].filesets;
    assert s1.tags[i := s1.tags[i]] == s1.tags;
  }

  /** Untagging a fileset that no tag holds undoes tagging it: the tag table
      is as before, a tag created for the request deleted again.  The one
      exception is a named tag that held no fileset: the untag leaves it
      empty once more and so deletes it. */
  lemma TagUntagRoundTrip(s: Store, req: Option<TagRequest>, known: set<int>)
    requires ValidStore(s)
    requires req.Some? && req.value.filesetId.Some?
    requires forall i :: 0 <= i < |s.tags| ==> req.value.filesetId.value !in s.tags[i].filesets
    ensures var named := Lookup(s.tags, req.value);
      UntagSpec(TagSpec(s, req, known).0, req, known).0.tags ==
        if req.value.filesetId.value in known && named.Some? && |s.tags[named.value].filesets| == 0
        then s.tags[..named.value] + s.tags[named.value + 1..]
        else s.tags
  {
    var r := req.value;
    var fid := r.filesetId.value;
    var named := Lookup(s.tags, r);
    if fid in known {
      if named.Some? {
        var i := named.value;
        assert TagSpec(s, req, known).0 == Attach(s, i, fid).0;
        UntagAttached(s, req, known, i);
      } else if !GivenId(r.tagId) && GivenLabel(r.tagLabel) {
        UntagCreated(s, req, known);
      } else {
        assert TagSpec(s, req, known).0 == s;
      }
    }
  }

  /** Untagging, by the same request, a fileset a tag request created its
      tag for deletes that tag again. */
  lemma UntagCreated(s: Store, req: Option<TagRequest>, known: set<int>)
    requires req.Some? && req.value.filesetId.Some? && req.value.filesetId.value in known
    requires !GivenId(req.value.tagId) && GivenLabel(req.value.tagLabel) && Lookup(s.tags, req.value).None?
    ensures UntagSpec(TagSpec(s, req, known).0, req, known).0.tags == s.tags
  {
    var r := req.value;
    var fid := r.filesetId.value;
    var s1 := Store(s.tags + [TagRow(s.nextId, r.tagLabel.value, [fid])], s.nextId + 1);
    assert TagSpec(s, req, known).0 == s1;
    FindLabelIs(s1.tags, r.tagLabel.value, |s.tags|);
    assert UntagSpec(s1, req, known).0 == Detach(s1, |s.tags|, fid);
    DetachCreated(s, r.tagLabel.value, fid);
  }

  /** Untagging, by the same request, a fileset just added to the tag the
      request names. */
  lemma UntagAttached(s: Store, req: Option<TagRequest>, known: set<int>, i: nat)
    requires ValidStore(s) && req.Some? && req.value.filesetId.Some? && req.value.filesetId.value in known
    requires Lookup(s.tags, req.value) == Some(i) && req.value.filesetId.value !in s.tags[i].filesets
    ensures UntagSpec(Attach(s, i, req.value.filesetId.value).0, req, known).0.tags ==
      if |s.tags[i].filesets| == 0 then s.tags[..i] + s.tags[i + 1..] else s.tags
  {
    var r := req.value;
    var fid := r.filesetId.value;
    var s1 := Attach(s, i, fid).0;
    AttachKeepsKeys(s, i, fid);
    if GivenId(r.tagId) {
      FindIdIs(s1.tags, r.tagId.value, i);
    } else {
      FindLabelIs(s1.tags, r.tagLabel.value, i);
    }
    assert UntagSpec(s1, req, known).0 == Detach(s1, i, fid);
    DetachAttachAny(s, i, fid);
  }

  /** Removing from a tag that holds filesets what was just added to it
      restores the table. */
  lemma DetachAttach(s: Store, i: nat, fid: int)
    requires ValidStore(s) && i < |s.tags| && fid !in s.tags[i].filesets && |s.tags[i].filesets| > 0
    ensures Detach(Attach(s, i, fid).0, i, fid) == s
  {
    var t := s.tags[i];
    var s1 := Attach(s, i, fid).0;
    assert s1.tags[i].filesets == t.filesets + [fid];
    RemoveLast(t.filesets, fid);
    assert s1.tags[i := t] == s.tags;
  }

  lemma DetachAttachAny(s: Store, i: nat, fid: int)
    requires ValidStore(s) && i < |s.tags| && fid !in s.tags[i].filesets
    ensures Detach(Attach(s, i, fid).0, i, fid).tags ==
      if |s.tags[i].filesets| == 0 then s.tags[..i] + s.tags[i + 1..] else s.tags
  {
    if |s.tags[i].filesets| == 0 {
      DetachAttachEmpty(s, i, fid);
    } else {
      DetachAttach(s, i, fid);
    }
  }

  /** Adding a fileset to an empty tag and removing it again deletes the
      tag, as the untag route deletes every tag it leaves empty. */
  lemma DetachAttachEmpty(s: Store, i: nat, fid: int)
    requires i < |s.tags| && |s.tags[i].filesets| == 0
    ensures Detach(Attach(s, i, fid).0, i, fid) == s.(tags := s.tags[..i] + s.tags[i + 1..])
  {
    var s1 := Attach(s, i, fid).0;
    assert s1.tags[i].filesets == [fid];
    assert Remove([fid], fid) == [];
    assert s1.tags[..i] == s.tags[..i] && s1.tags[i + 1..] == s.tags[i + 1..];
  }

  lemma DetachCreated(s: Store, text: string, fid: int)
    ensures Detach(Store(s.tags + [TagRow(s.nextId, text, [fid])], s.nextId + 1), |s.tags|, fid).tags == s.tags
  {
    var tags := s.tags + [TagRow(s.nextId, text, [fid])];
    assert Remove([fid], fid) == [];
    assert tags[..|s.tags|] == s.tags;
  }

  lemma {:induction false} RemoveLast(s: seq<int>, x: int)
    requires x !in s
    ensures Remove(s + [x], x) == s
  {
    if |s| > 0 {
      HeadSnoc(s, x);
      RemoveLast(s[1..], x);
    }
  }

  /** Untagging a pair that is not associated changes nothing. */
  lemma UntagUnassociated(s: Store, req: Option<TagRequest>, known: set<int>)
    requires req.Some? && req.value.filesetId.Some?
    requires Lookup(s.tags, req.value).Some?
    requires req.value.filesetId.value !in s.tags[Lookup(s.tags, req.value).value].filesets
    ensures UntagSpec(s, req, known).0 == s
  {
  }

  /** An untag request without a body or without a fileset id raises; one
      naming an unknown fileset, or no existing tag by id or label, is
      refused; a raising or refused request changes nothing. */
  lemma UntagOutcome(s: Store, req: Option<TagRequest>, known: set<int>)
    ensures var (s1, reply) := UntagSpec(s, req, known);
      && (reply.Raised? <==> req.None? || req.value.filesetId.None?)
      && (reply == BadRequest <==>
            req.Some? && req.value.filesetId.Some? &&
            (req.value.filesetId.value !in known ||
             (GivenId(req.value.tagId) && FindId(s.tags, req.value.tagId.value).None?) ||
             (!GivenId(req.value.tagId) && GivenLabel(req.value.tagLabel) && FindLabel(s.tags, req.value.tagLabel.value).None?) ||
             (!GivenId(req.value.tagId) && !GivenLabel(req.value.tagLabel))))
      && (reply.Raised? || reply == BadRequest ==> s1 == s)
      && (!reply.Raised? && reply != BadRequest ==> reply == Empty)
  {
  }

  /** After an accepted untag the named tag no longer holds the fileset: it
      is either gone or without it, and no other tag changed. */
  lemma UntagDetaches(s: Store, req: Option<TagRequest>, known: set<int>)
    requires ValidStore(s)
    ensures var (s1, reply) := UntagSpec(s, req, known);
      reply == Empty ==>
        var i := Lookup(s.tags, req.value).value;
        var fid := req.value.filesetId.value;
        && (forall j :: 0 <= j < |s1.tags| && s1.tags[j].id == s.tags[i].id ==> fid !in s1.tags[j].filesets)
        && (forall j :: 0 <= j < |s1.tags| && s1.tags[j].id != s.tags[i].id ==> s1.tags[j] in s.tags)
  {
    var (s1, reply) := UntagSpec(s, req, known);
    if reply == Empty {
      DetachEffect(s, Lookup(s.tags, req.value).value, req.value.filesetId.value);
    }
  }

  /** After detaching, the tag no longer holds the fileset, and every other
      tag is one of the store's. */
  lemma DetachEffect(s: Store, i: nat, fid: int)
    requires ValidStore(s) && i < |s.tags|
    ensures var s1 := Detach(s, i, fid);
      && (forall j :: 0 <= j < |s1.tags| && s1.tags[j].id == s.tags[i].id ==> fid !in s1.tags[j].filesets)
      && (forall j :: 0 <= j < |s1.tags| && s1.tags[j].id != s.tags[i].id ==> s1.tags[j] in s.tags)
  {
    var t := s.tags[i];
    if fid in t.filesets {
      RemoveDistinct(t.filesets, fid);
      if |Remove(t.filesets, fid)| == 0 {
        ValidDrop(s, i);
      }
    }
  }

  /** The tag table of the application, changed by the two routes. */
  class TagTable {
    var tags: seq<TagRow>
    var nextId: int

    ghost predicate Valid()
      reads this
    {
      ValidStore(Store(tags, nextId))
    }

    constructor ()
      ensures Valid() && tags == [] && nextId == 1
    {
      tags := [];
      nextId := 1;
    }

    /** `_tag`: the fileset is added to the tag if it is not there yet, a
        tag named by label is created when none has that label. */
    method Tag(req: Option<TagRequest>, known: set<int>) returns (reply: Reply)
      requires Valid()
      modifies this
      ensures Valid()
      ensures (Store(tags, nextId), reply) == TagSpec(old(Store(tags, nextId)), req, known)
    {
      TagKeepsValid(Store(tags, nextId), req, known);
      if req.None? || req.value.filesetId.None? || req.value.filesetId.value !in known {
        return BadRequest;
      }
      var r := req.value;
      var fid := r.filesetId.value;
      var found: Option<nat>;
      if GivenId(r.tagId) {
        found := FindId(tags, r.tagId.value);
        if found.None? {
          return BadRequest;
        }
      } else if GivenLabel(r.tagLabel) {
        found := FindLabel(tags, r.tagLabel.value);
        if found.None? {
          tags := tags + [TagRow(nextId, r.tagLabel.value, [fid])];
          reply := Tagged(r.tagLabel.value, nextId);
          nextId := nextId + 1;
          return;
        }
      } else {
        return BadRequest;
      }
      var i := found.value;
      var t := tags[i];
      if fid !in t.filesets {
        tags := tags[i := t.(filesets := t.filesets + [fid])];
      } else {
        assert tags[i := t] == tags;
      }
      reply := Tagged(t.name, t.id);
    }

    /** `_untag`: the fileset leaves the tag, and a tag left without
        filesets is deleted. */
    method Untag(req: Option<TagRequest>, known: set<int>) returns (reply: Reply)
      requires Valid()
      modifies this
      ensures Valid()
      ensures (Store(tags, nextId), reply) == UntagSpec(old(Store(tags, nextId)), req, known)
    {
      UntagKeepsValid(Store(tags, nextId), req, known);
      if req.None? {
        return Raised(TypeError);
      }
      if req.value.filesetId.None? {
        return Raised(KeyError);
      }
      var fid := req.value.filesetId.value;
      if fid !in known {
        return BadRequest;
      }
      var found := Lookup(tags, req.value);
      if found.None? {
        return BadRequest;
      }
      var i := found.value;
      var t := tags[i];
      if fid in t.filesets {
        var rest := Remove(t.filesets, fid);
        if |rest| > 0 {
          tags := tags[i := t.(filesets := rest)];
        } else {
          tags := tags[..i] + tags[i + 1..];
        }
      }
      reply := Empty;
    }
  }

  /** `fileset_delete_route`: the fileset with that id is marked deleted by
      the current user; an unknown id raises, as `.one()` does. */
  method DeleteFileset(c: Storage.Catalogue, id: int, username: string) returns (r: Result<(), string>)
    requires c.Valid()
    modifies c
    ensures c.Valid()
    ensures r.Err? <==> !(1 <= id <= |old(c.filesets)|)
    ensures r.Err? ==> r.error == NoResultFound && c.filesets == old(c.filesets)
    ensures r.Ok? ==>
      c.filesets == old(c.filesets)[id - 1 := old(c.filesets)[id - 1].(deleted := true, deletedReason := Some(username))]
  {
    if !(1 <= id <= |c.filesets|) {
      return Err(NoResultFound);
    }
    var row := c.filesets[id - 1];
    c.filesets := c.filesets[id - 1 := row.(deleted := true, deletedReason := Some(username))];
    r := Ok(());
  }
}
