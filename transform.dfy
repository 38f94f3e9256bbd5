/**
 * transform_contact: the listed boolean and timestamp properties of a
 * contact, each a map from a key to a value, are rewritten into lists of
 * pairs; everything else in the contact is left as it is.
 */
module Transform {
  import opened Wrappers
  import opened Json
  import opened Errors

  const BOOLEAN_PROPS: seq<string> := ["anywhere_page_visits", "anywhere_form_submits", "anywhere_utm"]
  const TIMESTAMP_PROPS: seq<string> :=
    ["mail_received", "mail_opened", "mail_clicked", "mail_bounced",
     "mail_complained", "mail_unsubscribed", "mail_hardbounced"]

  /** The pair built from one entry of a property's map: its key under `nameKey`, its value under `valueKey`. */
  function Pair(nameKey: string, valueKey: string, entry: Field): Value
  {
    JObject([Field(nameKey, JStr(entry.key)), Field(valueKey, entry.value)])
  }

  /** One pair per entry, in the map's order. */
  function Pairs(nameKey: string, valueKey: string, entries: seq<Field>): (r: seq<Value>)
    ensures |r| == |entries|
    ensures forall j :: 0 <= j < |entries| ==> r[j] == Pair(nameKey, valueKey, entries[j])
    decreases |entries|
  {
    if |entries| == 0 then []
    else Pairs(nameKey, valueKey, entries[..|entries| - 1]) + [Pair(nameKey, valueKey, entries[|entries| - 1])]
  }

  /**
   * The entries `for row in value` walks, looking each one up again: those of
   * a map, none for an empty list or string; None for any other value, on
   * which the loop raises.
   */
  function Entries(v: Value): Option<seq<Field>>
  {
    match v
    case JObject(fields) => Some(fields)
    case JArray(items) => if |items| == 0 then Some([]) else None
    case JStr(s) => if |s| == 0 then Some([]) else None
    case _ => None
  }

  /** Rewrites `prop` of `contact` in place, if present. */
  function RewriteProp(contact: Object, prop: string, nameKey: string, valueKey: string): Result<Object, TapError>
  {
    match Find(contact, prop)
    case None => Ok(contact)
    case Some(k) =>
      match Entries(contact[k].value)
      case None => Err(NotAMap(prop))
      case Some(entries) => Ok(contact[k := Field(prop, JArray(Pairs(nameKey, valueKey, entries)))])
  }

  /** Rewrites each of `props` in turn; the first that cannot be rewritten raises. */
  function RewritePropsSpec(contact: Object, props: seq<string>, nameKey: string, valueKey: string): Result<Object, TapError>
    decreases |props|
  {
    if |props| == 0 then Ok(contact)
    else match RewriteProp(contact, props[0], nameKey, valueKey)
      case Err(e) => Err(e)
      case Ok(c) => RewritePropsSpec(c, props[1..], nameKey, valueKey)
  }

  /** The transformed contact: first the boolean properties into url/value pairs, then the timestamp ones into id/timestamp pairs. */
  function Transformed(contact: Object): Result<Object, TapError>
  {
    match RewritePropsSpec(contact, BOOLEAN_PROPS, "url", "value")
    case Err(e) => Err(e)
    case Ok(c) => RewritePropsSpec(c, TIMESTAMP_PROPS, "id", "timestamp")
  }

  /** The loop over one property list, building each property's list of pairs entry by entry. */
  method RewriteProps(contact: Object, props: seq<string>, nameKey: string, valueKey: string)
    returns (r: Result<Object, TapError>)
    ensures r == RewritePropsSpec(contact, props, nameKey, valueKey)
  {
    var current := contact;
    var i := 0;
    while i < |props|
      invariant 0 <= i <= |props|
      invariant RewritePropsSpec(contact, props, nameKey, valueKey)
        == RewritePropsSpec(current, props[i..], nameKey, valueKey)
    {
      var prop := props[i];
      assert props[i..][1..] == props[i + 1..];
      var k := Find(current, prop);
      if k.Some? {
        var entries := Entries(current[k.value].value);
        if entries.None? {
          return Err(NotAMap(prop));
        }
        var formatted: seq<Value> := [];
        var j := 0;
        while j < |entries.value|
          invariant 0 <= j <= |entries.value|
          invariant formatted == Pairs(nameKey, valueKey, entries.value[..j])
        {
          var entry := entries.value[j];
          assert entries.value[..j + 1][..j] == entries.value[..j];
          formatted := formatted + [JObject([Field(nameKey, JStr(entry.key)), Field(valueKey, entry.value)])];
          j := j + 1;
        }
        assert entries.value[..j] == entries.value;
        current := current[k.value := Field(prop, JArray(formatted))];
      }
      i := i + 1;
    }
    return Ok(current);
  }

  /** transform_contact. */
  method TransformContact(contact: Object) returns (r: Result<Object, TapError>)
    ensures r == Transformed(contact)
  {
    r := RewriteProps(contact, BOOLEAN_PROPS, "url", "value");
    if r.Ok? {
      r := RewriteProps(r.value, TIMESTAMP_PROPS, "id", "timestamp");
    }
  }

  // ----- the transformation field by field -----

  predicate NoDuplicates(xs: seq<string>)
  {
    forall i, j :: 0 <= i < j < |xs| ==> xs[i] != xs[j]
  }

  /** What happens to one field when `props` are rewritten. */
  function RewriteWith(f: Field, props: seq<string>, nameKey: string, valueKey: string): (r: Result<Field, TapError>)
    ensures r.Ok? ==> r.value.key == f.key
  {
    if f.key !in props then Ok(f)
    else match Entries(f.value)
      case None => Err(NotAMap(f.key))
      case Some(entries) => Ok(Field(f.key, JArray(Pairs(nameKey, valueKey, entries))))
  }

  /** What transform_contact does to one field of a contact. */
  function RewriteField(f: Field): Result<Field, TapError>
  {
    if f.key in BOOLEAN_PROPS then RewriteWith(f, BOOLEAN_PROPS, "url", "value")
    else RewriteWith(f, TIMESTAMP_PROPS, "id", "timestamp")
  }

  /** Rewriting a list of distinct properties in turn acts on each field independently. */
  lemma {:induction false} RewritePropsFieldwise(c: Object, props: seq<string>, nameKey: string, valueKey: string)
    requires DistinctKeys(c) && NoDuplicates(props)
    ensures var r := RewritePropsSpec(c, props, nameKey, valueKey);
      && (r.Ok? <==> forall i :: 0 <= i < |c| ==> RewriteWith(c[i], props, nameKey, valueKey).Ok?)
      && (r.Ok? ==> |r.value| == |c| &&
                    forall i :: 0 <= i < |c| ==> RewriteWith(c[i], props, nameKey, valueKey) == Ok(r.value[i]))
      && (r.Err? ==> r.error.NotAMap? && r.error.property in props)
    decreases |props|
  {
    if |props| > 0 {
      var p := props[0];
      var rest := props[1..];
      assert NoDuplicates(rest);
      assert forall i :: 0 <= i < |c| && c[i].key != p ==>
        RewriteWith(c[i], props, nameKey, valueKey) == RewriteWith(c[i], rest, nameKey, valueKey);
      match Find(c, p)
      case None =>
        RewritePropsFieldwise(c, rest, nameKey, valueKey);
      case Some(k) =>
        match Entries(c[k].value)
        case None =>
          assert RewriteWith(c[k], props, nameKey, valueKey).Err?;
        case Some(entries) =>
          var c' := c[k := Field(p, JArray(Pairs(nameKey, valueKey, entries)))];
          assert DistinctKeys(c') by {
            assert forall i :: 0 <= i < |c| ==> c'[i].key == c[i].key;
          }
          RewritePropsFieldwise(c', rest, nameKey, valueKey);
          assert p !in rest;
          assert RewriteWith(c'[k], rest, nameKey, valueKey) == Ok(c'[k]);
          assert RewriteWith(c[k], props, nameKey, valueKey) == Ok(c'[k]);
          assert forall i :: 0 <= i < |c| && i != k ==> c'[i] == c[i] && c[i].key != p;
    }
  }

  /**
   * Under distinct keys (as in every dict), transform_contact succeeds exactly
   * when every listed property present holds a map (or an empty list or
   * string); it then keeps every field in its place and under its key,
   * rewrites each listed property into one pair per map entry and leaves
   * every other field unchanged. A failure names a listed property.
   */
  lemma TransformedFieldwise(c: Object)
    requires DistinctKeys(c)
    ensures var r := Transformed(c);
      && (r.Ok? <==> forall i :: 0 <= i < |c| ==> RewriteField(c[i]).Ok?)
      && (r.Ok? ==> |r.value| == |c| && forall i :: 0 <= i < |c| ==> RewriteField(c[i]) == Ok(r.value[i]))
      && (r.Err? ==> r.error.NotAMap? && (r.error.property in BOOLEAN_PROPS || r.error.property in TIMESTAMP_PROPS))
  {
    PropListsDistinct();
    RewritePropsFieldwise(c, BOOLEAN_PROPS, "url", "value");
    var r1 := RewritePropsSpec(c, BOOLEAN_PROPS, "url", "value");
    if r1.Ok? {
      var c1 := r1.value;
      assert DistinctKeys(c1) by {
        assert forall i :: 0 <= i < |c| ==> c1[i].key == c[i].key;
      }
      RewritePropsFieldwise(c1, TIMESTAMP_PROPS, "id", "timestamp");
      ComposeFieldwise(c, c1);
    }
  }

  lemma PropListsDistinct()
    ensures NoDuplicates(BOOLEAN_PROPS) && NoDuplicates(TIMESTAMP_PROPS)
    ensures forall x :: x in BOOLEAN_PROPS ==> x !in TIMESTAMP_PROPS
  {
  }

  /** A field the boolean pass has rewritten is rewritten by the timestamp pass as RewriteField says. */
  lemma ComposeFieldwise(c: Object, c1: Object)
    requires |c1| == |c|
    requires forall i :: 0 <= i < |c| ==> RewriteWith(c[i], BOOLEAN_PROPS, "url", "value") == Ok(c1[i])
    ensures forall i :: 0 <= i < |c| ==> RewriteField(c[i]) == RewriteWith(c1[i], TIMESTAMP_PROPS, "id", "timestamp")
  {
    PropListsDistinct();
  }

  /** No property is both a boolean and a timestamp one. */
  lemma PropListsDisjoint(x: string)
    requires x in TIMESTAMP_PROPS
    ensures x !in BOOLEAN_PROPS
  {
  }

  /** One boolean property holding a map, rewritten on its own. */
  lemma RewriteBooleanField(f: Field)
    requires f.key in BOOLEAN_PROPS && f.value.JObject?
    ensures RewriteField(f) == Ok(Field(f.key, JArray(Pairs("url", "value", f.value.fields))))
  {
  }

  /** One timestamp property holding a map, rewritten on its own. */
  lemma RewriteTimestampField(f: Field)
    requires f.key in TIMESTAMP_PROPS && f.value.JObject?
    ensures RewriteField(f) == Ok(Field(f.key, JArray(Pairs("id", "timestamp", f.value.fields))))
  {
    PropListsDisjoint(f.key);
  }

  /** A listed boolean property's map becomes url/value pairs carrying the map's keys and values in order. */
  lemma BooleanPropRewritten(c: Object, out: Object, i: nat)
    requires DistinctKeys(c) && Transformed(c) == Ok(out)
    requires i < |c| && c[i].key in BOOLEAN_PROPS && c[i].value.JObject?
    ensures i < |out| && out[i].key == c[i].key && out[i].value.JArray?
    ensures |out[i].value.items| == |c[i].value.fields|
    ensures forall j :: 0 <= j < |c[i].value.fields| ==>
      out[i].value.items[j] == JObject([Field("url", JStr(c[i].value.fields[j].key)), Field("value", c[i].value.fields[j].value)])
  {
    TransformedFieldwise(c);
    RewriteBooleanField(c[i]);
  }

  /** A listed timestamp property's map becomes id/timestamp pairs; milliseconds pass through unchanged. */
  lemma TimestampPropRewritten(c: Object, out: Object, i: nat)
    requires DistinctKeys(c) && Transformed(c) == Ok(out)
    requires i < |c| && c[i].key in TIMESTAMP_PROPS && c[i].value.JObject?
    ensures i < |out| && out[i].key == c[i].key && out[i].value.JArray?
    ensures |out[i].value.items| == |c[i].value.fields|
    ensures forall j :: 0 <= j < |c[i].value.fields| ==>
      out[i].value.items[j] == JObject([Field("id", JStr(c[i].value.fields[j].key)), Field("timestamp", c[i].value.fields[j].value)])
  {
    TransformedFieldwise(c);
    RewriteTimestampField(c[i]);
  }
}
