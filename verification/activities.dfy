/** The current account's activity list and the search that correlates a
    transaction hash with it (`activities.find(({ hash }) => hash === h)`). */
module Activities {
  import opened Wrappers

  /** One loaded activity: its transaction hash and the display details the
      panel hands on without reading. */
  datatype Activity = Activity(hash: string, details: string)

  /** Index of the first activity whose hash is exactly `h`, scanning in list
      order; `None` when no activity has that hash. */
  function FirstIndexWithHash(activities: seq<Activity>, h: string): (r: Option<nat>)
    ensures r.Some? ==> r.value < |activities| && activities[r.value].hash == h
    ensures r.Some? ==> forall j :: 0 <= j < r.value ==> activities[j].hash != h
    ensures r.None? <==> forall j :: 0 <= j < |activities| ==> activities[j].hash != h
    decreases |activities|
  {
    if |activities| == 0 then None
    else if activities[0].hash == h then Some(0)
    else
      match FirstIndexWithHash(activities[1..], h)
      case None => None
      case Some(i) => Some(i + 1)
  }

  /** `Array.prototype.find` with the predicate "hash equals `h`". */
  function FindByHash(activities: seq<Activity>, h: string): (r: Option<Activity>)
    ensures r.Some? ==> r.value in activities && r.value.hash == h
    ensures r.None? <==> forall a :: a in activities ==> a.hash != h
  {
    match FirstIndexWithHash(activities, h)
    case None => None
    case Some(i) => Some(activities[i])
  }

  /** Reference definition: `a` sits at some position of the list, carries
      hash `h`, and no earlier activity carries `h`. */
  ghost predicate IsFirstWithHash(activities: seq<Activity>, h: string, a: Activity) {
    exists i :: 0 <= i < |activities| && activities[i] == a && a.hash == h
      && forall j :: 0 <= j < i ==> activities[j].hash != h
  }

  /** The search returns an activity exactly when that activity is the first
      one with the hash: first match wins when hashes repeat. */
  lemma FindByHashIsFirstMatch(activities: seq<Activity>, h: string, a: Activity)
    ensures FindByHash(activities, h) == Some(a) <==> IsFirstWithHash(activities, h, a)
  {
  }

  /** Searching a longer window: a match found in the loaded prefix is kept,
      and only when the prefix has no match does the rest decide. */
  lemma {:induction false} FindByHashOverConcatenation(first: seq<Activity>, rest: seq<Activity>, h: string)
    ensures FindByHash(first + rest, h) ==
      (if FindByHash(first, h).Some? then FindByHash(first, h) else FindByHash(rest, h))
  {
    if |first| == 0 {
      assert first + rest == rest;
    } else if first[0].hash == h {
      assert (first + rest)[0] == first[0];
    } else {
      assert (first + rest)[0] == first[0];
      assert (first + rest)[1..] == first[1..] + rest;
      FindByHashOverConcatenation(first[1..], rest, h);
      FindByHashSkipsHead(first, h);
      FindByHashSkipsHead(first + rest, h);
    }
  }

  /** When the head does not match, the search continues on the tail. */
  lemma FindByHashSkipsHead(activities: seq<Activity>, h: string)
    requires |activities| > 0 && activities[0].hash != h
    ensures FindByHash(activities, h) == FindByHash(activities[1..], h)
  {
  }
}
