/**
 * The capture side of the Android client: turning a posted notification into
 * a record and keeping the records in a first-in first-out queue until the
 * sync service has uploaded them.
 */
module NotificationListener {
  import opened Wrappers

  /** One captured notification, as held in the queue and sent to the backend. */
  datatype NotificationData = NotificationData(appName: string, sender: string, message: string, timestamp: string)

  /**
   * What the listener can read from a posted notification. `Unreadable` stands
   * for an event whose extraction throws. The timestamp is already formatted.
   */
  datatype Posted =
    | Readable(packageName: string, title: Option<string>, text: Option<string>, timestamp: string)
    | Unreadable

  /** The in-memory queue, oldest record first. */
  type Queue = seq<NotificationData>

  const DefaultSender := "Unknown"
  const DefaultMessage := ""

  /** The display names of the packages the listener knows. */
  const KnownApps: map<string, string> := map[
    "com.whatsapp" := "WhatsApp",
    "com.instagram.android" := "Instagram",
    "com.facebook.orca" := "Facebook Messenger",
    "com.google.android.gm" := "Gmail",
    "com.snapchat.android" := "Snapchat",
    "com.twitter.android" := "Twitter",
    "com.linkedin.android" := "LinkedIn"
  ]

  /** Display name of a package: the known name, or the identifier itself. */
  function AppName(packageName: string): (name: string)
    ensures packageName in KnownApps ==> name == KnownApps[packageName]
    ensures packageName !in KnownApps ==> name == packageName
  {
    if packageName == "com.whatsapp" then "WhatsApp"
    else if packageName == "com.instagram.android" then "Instagram"
    else if packageName == "com.facebook.orca" then "Facebook Messenger"
    else if packageName == "com.google.android.gm" then "Gmail"
    else if packageName == "com.snapchat.android" then "Snapchat"
    else if packageName == "com.twitter.android" then "Twitter"
    else if packageName == "com.linkedin.android" then "LinkedIn"
    else packageName
  }

  /** The record built for a readable notification. */
  function Record(p: Posted): (r: NotificationData)
    requires p.Readable?
    ensures r.appName == AppName(p.packageName) && r.timestamp == p.timestamp
    ensures r.sender == (if p.title.Some? then p.title.value else DefaultSender)
    ensures r.message == (if p.text.Some? then p.text.value else DefaultMessage)
  {
    NotificationData(AppName(p.packageName), Elvis(p.title, DefaultSender), Elvis(p.text, DefaultMessage), p.timestamp)
  }

  /**
   * onNotificationPosted: a readable notification adds one record at the tail;
   * an unreadable one is dropped and the queue is left as it was.
   */
  function Capture(q: Queue, p: Posted): (q': Queue)
    ensures p.Unreadable? ==> q' == q
    ensures p.Readable? ==> |q'| == |q| + 1 && q'[..|q|] == q && q'[|q|] == Record(p)
  {
    match p
    case Readable(_, _, _, _) => q + [Record(p)]
    case Unreadable => q
  }

  /** getCapturedNotifications: a copy of the queue; the queue itself is untouched. */
  function Snapshot(q: Queue): (copy: Queue)
    ensures |copy| == |q| && forall i :: 0 <= i < |q| ==> copy[i] == q[i]
  {
    q[..]
  }

  /** clearNotificationQueue: the queue afterwards holds nothing. */
  function Clear(q: Queue): (q': Queue)
    ensures |q'| == 0
  {
    []
  }

  /**
   * clearOldNotifications(n): drops the `n` oldest records; asking for more
   * records than the queue holds leaves it as it is.
   */
  function ClearOld(q: Queue, n: nat): (q': Queue)
    ensures n <= |q| ==> |q'| == |q| - n
    ensures n > |q| ==> q' == q
    ensures forall i :: 0 <= i < |q'| ==> q'[i] == q[|q| - |q'| + i]
  {
    if n > |q| then q else q[n..]
  }

  /** The records of the readable postings of a stream, in posting order. */
  function Readables(events: seq<Posted>): seq<NotificationData>
  {
    if events == [] then []
    else Readables(events[..|events| - 1])
         + (if events[|events| - 1].Readable? then [Record(events[|events| - 1])] else [])
  }

  /** Feeding a stream of posted notifications to the listener, one at a time. */
  function CaptureAll(q: Queue, events: seq<Posted>): Queue
    decreases |events|
  {
    if events == [] then q else CaptureAll(Capture(q, events[0]), events[1..])
  }

  /**
   * After any stream of postings the queue is the earlier queue followed by
   * the records of exactly the readable postings, in the order they were posted.
   */
  lemma {:induction false} CaptureAllIsFifo(q: Queue, events: seq<Posted>)
    ensures CaptureAll(q, events) == q + Readables(events)
    decreases |events|
  {
    if events == [] {
    } else {
      var rest := events[1..];
      CaptureAllIsFifo(Capture(q, events[0]), rest);
      ReadablesCons(events[0], rest);
      assert events == [events[0]] + rest;
    }
  }

  /** Readables of a stream with one event in front. */
  lemma {:induction false} ReadablesCons(e: Posted, rest: seq<Posted>)
    ensures Readables([e] + rest) == (if e.Readable? then [Record(e)] else []) + Readables(rest)
    decreases |rest|
  {
    if rest == [] {
      assert ([e] + rest)[..0] == [];
    } else {
      var front := rest[..|rest| - 1];
      assert ([e] + rest)[..|rest|] == [e] + front;
      ReadablesCons(e, front);
    }
  }
}
