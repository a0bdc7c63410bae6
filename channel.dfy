/**
 * The data-source side of the bot: messages, what the bot posts, a channel as
 * the bot sees it, and the selection rules the handlers apply to its history.
 *
 * `channel.history()` yields messages newest first; a channel's `history` is
 * that sequence. Message ids (Discord snowflakes) are unique within a channel.
 * `history(before = c)` is assumed to yield exactly the messages created
 * strictly before `c`, in the same order (the `Before` rule below).
 */
module Channel {
  import opened Results
  import opened Period

  type Id = nat

  /** A Discord user: `tag` is `str(user)`, the name shown in parentheses. */
  datatype User = User(id: Id, tag: string, displayName: string)

  /** An attachment slot: the handler keeps the slots that are present and carry a url. */
  datatype Attachment = Attachment(url: string, filename: string)

  datatype Msg = Msg(id: Id, author: User, content: string,
                     attachments: seq<Option<Attachment>>, createdAt: Instant)

  /** A message the bot sends: its text and the files it uploads. */
  datatype Post = Post(content: string, files: seq<Attachment>)

  // ---------------------------------------------------------------- selection

  /** What a scan selects: every message (`-all`), the messages no older than
      `window` at `now` (`-last`), the messages of one user (`-from_user`,
      which selects nothing without a user), or those created before a cutoff (purge). */
  datatype Rule = Everything | Recent(now: Instant, window: int) | AuthoredBy(user: Option<Id>) | Before(cutoff: int)

  predicate Matches(m: Msg, r: Rule) {
    match r
    case Everything => true
    case Recent(now, window) => now - m.createdAt <= window
    case AuthoredBy(u) => u.Some? && m.author.id == u.value
    case Before(cutoff) => m.createdAt < cutoff
  }

  /** The messages of `s` on which `r` is `b`, in their order in `s`. */
  function Pick(s: seq<Msg>, r: Rule, b: bool): (p: seq<Msg>)
    ensures |p| <= |s|
  {
    if s == [] then []
    else
      var last := s[|s| - 1];
      Pick(s[..|s| - 1], r, b) + (if Matches(last, r) == b then [last] else [])
  }

  function Ids(s: seq<Msg>): set<Id> {
    set m | m in s :: m.id
  }

  predicate Distinct(s: seq<Msg>) {
    forall i, j :: 0 <= i < j < |s| ==> s[i].id != s[j].id
  }

  /** `s` without the messages whose id is in `ids`: what deleting those ids leaves. */
  function Without(s: seq<Msg>, ids: set<Id>): (t: seq<Msg>)
    ensures |t| <= |s|
  {
    if s == [] then []
    else
      var last := s[|s| - 1];
      Without(s[..|s| - 1], ids) + (if last.id in ids then [] else [last])
  }

  /** `s` last element first: newest-first history read oldest first. */
  function Reverse(s: seq<Msg>): (t: seq<Msg>)
    ensures |t| == |s|
    ensures forall m :: m in t <==> m in s
  {
    if s == [] then [] else [s[|s| - 1]] + Reverse(s[..|s| - 1])
  }

  // ---------------------------------------------------------------- composing a post

  /** The files the handler re-uploads: the attachment slots that are present and have a url. */
  function Carried(slots: seq<Option<Attachment>>): (fs: seq<Attachment>)
    ensures |fs| <= |slots|
    ensures forall a :: a in fs <==> Some(a) in slots && a.url != ""
  {
    if slots == [] then []
    else
      var rest := Carried(slots[1..]);
      assert forall a :: Some(a) in slots <==> Some(a) == slots[0] || Some(a) in slots[1..];
      if slots[0].Some? && slots[0].value.url != "" then [slots[0].value] + rest else rest
  }

  /** "<display name> (<user>):" followed by a newline and the original text. */
  function Compose(m: Msg): (p: Post)
    ensures p.files == Carried(m.attachments)
    ensures |m.content| < |p.content| && p.content[|p.content| - |m.content|..] == m.content
  {
    var header := m.author.displayName + " (" + m.author.tag + "):";
    var text := header + "\n" + m.content;
    assert text[|text| - |m.content|..] == m.content;
    Post(text, Carried(m.attachments))
  }

  /** The posts a replay of `s` sends, in order. */
  function Posts(s: seq<Msg>): (ps: seq<Post>)
    ensures |ps| == |s|
  {
    seq(|s|, i requires 0 <= i < |s| => Compose(s[i]))
  }

  /** The step at which a run of `n` steps stops when step `failing` (0-based) raises. */
  function Completed(n: nat, failing: Option<nat>): (k: nat)
    ensures k <= n
    ensures k < n <==> failing.Some? && failing.value < n
    ensures k < n ==> k == failing.value
  {
    if failing.Some? && failing.value < n then failing.value else n
  }

  // ---------------------------------------------------------------- a channel

  /** A text channel: its history (newest first) and what the bot has posted to it. */
  class Channel {
    var history: seq<Msg>
    var posts: seq<Post>

    ghost predicate Valid()
      reads this`history
    {
      Distinct(history)
    }

    constructor (history: seq<Msg>)
      requires Distinct(history)
      ensures Valid() && this.history == history && posts == []
    {
      this.history := history;
      posts := [];
    }

    /** `channel.send(...)`: the post is appended. */
    method Send(p: Post)
      modifies this`posts
      ensures posts == old(posts) + [p]
      ensures Valid() == old(Valid())
    {
      posts := posts + [p];
    }

    /** `message.delete()`: the message with that id leaves the history. */
    method Delete(id: Id)
      modifies this`history
      ensures history == Without(old(history), {id})
      ensures old(Valid()) ==> Valid()
    {
      history := Without(history, {id});
      if old(Valid()) {
        WithoutDistinct(old(history), {id});
      }
    }
  }

  // ---------------------------------------------------------------- lemmas

  /** Deleting a set of ids leaves exactly the messages whose id is not in it. */
  lemma {:induction false} WithoutMembers(s: seq<Msg>, ids: set<Id>)
    ensures forall m :: m in Without(s, ids) <==> m in s && m.id !in ids
  {
    if s != [] {
      WithoutMembers(s[..|s| - 1], ids);
      assert s == s[..|s| - 1] + [s[|s| - 1]];
    }
  }

  lemma {:induction false} WithoutDistinct(s: seq<Msg>, ids: set<Id>)
    requires Distinct(s)
    ensures Distinct(Without(s, ids))
  {
    if s != [] {
      var init := s[..|s| - 1];
      WithoutDistinct(init, ids);
      var t := Without(s, ids);
      forall i, j | 0 <= i < j < |t| ensures t[i].id != t[j].id {
        if j == |t| - 1 && s[|s| - 1].id !in ids {
          WithoutMembers(init, ids);
          assert t[i] in Without(init, ids);
          assert t[i] in init;
          var p :| 0 <= p < |init| && init[p] == t[i];
          assert s[p] == t[i];
        }
      }
    }
  }

  /** A message is selected iff it is in the history and the rule says `b` of it. */
  lemma {:induction false} PickMembers(s: seq<Msg>, r: Rule, b: bool)
    ensures forall m :: m in Pick(s, r, b) <==> m in s && Matches(m, r) == b
  {
    if s != [] {
      PickMembers(s[..|s| - 1], r, b);
      assert s == s[..|s| - 1] + [s[|s| - 1]];
    }
  }

  /** `-all` selects the whole history. */
  lemma {:induction false} PickEverything(s: seq<Msg>)
    ensures Pick(s, Everything, true) == s
  {
    if s != [] {
      PickEverything(s[..|s| - 1]);
      assert s == s[..|s| - 1] + [s[|s| - 1]];
    }
  }

  /** Attachments are carried slot by slot, in order: the files of two runs of slots
      are the files of the first followed by those of the second. */
  lemma {:induction false} CarriedAppend(a: seq<Option<Attachment>>, b: seq<Option<Attachment>>)
    ensures Carried(a + b) == Carried(a) + Carried(b)
  {
    if a == [] {
      assert a + b == b;
    } else {
      assert (a + b)[0] == a[0] && (a + b)[1..] == a[1..] + b;
      CarriedAppend(a[1..], b);
    }
  }

  /** One slot carries its attachment exactly when it is present and has a url. */
  lemma CarriedOne(x: Option<Attachment>)
    ensures Carried([x]) == if x.Some? && x.value.url != "" then [x.value] else []
  {
    assert [x][1..] == [];
  }

  /** Every message is selected or rejected by a rule, exactly once. */
  lemma {:induction false} PickSizes(s: seq<Msg>, r: Rule)
    ensures |Pick(s, r, true)| + |Pick(s, r, false)| == |s|
  {
    if s != [] {
      PickSizes(s[..|s| - 1], r);
    }
  }

  lemma {:induction false} IdsAppend(a: seq<Msg>, b: seq<Msg>)
    ensures Ids(a + b) == Ids(a) + Ids(b)
  {
    assert forall m :: m in a + b <==> m in a || m in b;
  }

  lemma {:induction false} IdsOfLast(s: seq<Msg>)
    requires s != []
    ensures Ids(s) == Ids(s[..|s| - 1]) + {s[|s| - 1].id}
  {
    assert s == s[..|s| - 1] + [s[|s| - 1]];
    IdsAppend(s[..|s| - 1], [s[|s| - 1]]);
  }

  /** In a history with unique ids, the last message's id belongs to no earlier message. */
  lemma LastIdIsNew(s: seq<Msg>)
    requires s != [] && Distinct(s)
    ensures s[|s| - 1].id !in Ids(s[..|s| - 1])
  {
  }

  lemma IdsEmpty(s: seq<Msg>)
    requires s == []
    ensures Ids(s) == {}
  {
  }

  lemma WithoutNone(s: seq<Msg>)
    ensures Without(s, {}) == s
  {
    if s != [] {
      WithoutNone(s[..|s| - 1]);
      assert s == s[..|s| - 1] + [s[|s| - 1]];
    }
  }

  /** Removing an id that no message has changes nothing. */
  lemma {:induction false} WithoutAbsent(s: seq<Msg>, ids: set<Id>, x: Id)
    requires x !in Ids(s)
    ensures Without(s, ids + {x}) == Without(s, ids)
  {
    if s != [] {
      IdsOfLast(s);
      WithoutAbsent(s[..|s| - 1], ids, x);
    }
  }

  /** Deleting the newest message by its id leaves the older ones, when its id is unique. */
  lemma DeleteNewest(s: seq<Msg>, x: Msg)
    requires x.id !in Ids(s)
    ensures Without(s + [x], {x.id}) == s
  {
    assert (s + [x])[..|s|] == s;
    assert Without(s + [x], {x.id}) == Without(s, {x.id});
    WithoutAbsent(s, {}, x.id);
    assert {} + {x.id} == {x.id};
    WithoutNone(s);
  }

  /** Deleting one more id after a set of ids is deleting their union. */
  lemma {:induction false} WithoutThenOne(s: seq<Msg>, ids: set<Id>, x: Id)
    ensures Without(Without(s, ids), {x}) == Without(s, ids + {x})
  {
    if s != [] {
      var init, last := s[..|s| - 1], s[|s| - 1];
      WithoutThenOne(init, ids, x);
      var w := Without(s, ids);
      if last.id !in ids {
        assert w[..|w| - 1] == Without(init, ids);
      } else {
        assert w == Without(init, ids);
      }
    }
  }

  /** Deleting the ids of one more message of `s`, after those of the messages before it. */
  lemma DeletePrefixStep(h: seq<Msg>, s: seq<Msg>, j: nat)
    requires j < |s|
    ensures Without(Without(h, Ids(s[..j])), {s[j].id}) == Without(h, Ids(s[..j + 1]))
  {
    IdsOfLast(s[..j + 1]);
    assert s[..j + 1][..j] == s[..j];
    WithoutThenOne(h, Ids(s[..j]), s[j].id);
  }

  /** Replaying one more message sends one more post. */
  lemma PostsStep(s: seq<Msg>, j: nat)
    requires j < |s|
    ensures Posts(s[..j + 1]) == Posts(s[..j]) + [Compose(s[j])]
  {
  }

  /** Scanning one more message of `s` appends it to the selection when the rule matches it. */
  lemma PickStep(s: seq<Msg>, i: nat, r: Rule)
    requires i < |s|
    ensures Pick(s[..i + 1], r, true) == Pick(s[..i], r, true) + (if Matches(s[i], r) then [s[i]] else [])
  {
    assert s[..i + 1][..i] == s[..i];
  }

  /** Selecting by a rule and deleting the selected ids leaves exactly the
      messages the rule rejects, in their original order. */
  lemma {:induction false} DeletingSelectedLeavesRest(h: seq<Msg>, r: Rule)
    requires Distinct(h)
    ensures Without(h, Ids(Pick(h, r, true))) == Pick(h, r, false)
  {
    if h != [] {
      var init, last := h[..|h| - 1], h[|h| - 1];
      assert Distinct(init);
      DeletingSelectedLeavesRest(init, r);
      LastIdIsNew(h);
      var sel := Pick(init, r, true);
      PickMembers(init, r, true);
      assert Ids(sel) <= Ids(init);
      if Matches(last, r) {
        IdsAppend(sel, [last]);
        assert Ids(Pick(h, r, true)) == Ids(sel) + {last.id};
        WithoutAbsent(init, Ids(sel), last.id);
      } else {
        assert Pick(h, r, true) == sel;
      }
    }
  }

  lemma {:induction false} PickAppend(a: seq<Msg>, b: seq<Msg>, r: Rule, v: bool)
    ensures Pick(a + b, r, v) == Pick(a, r, v) + Pick(b, r, v)
  {
    if b == [] {
      assert a + b == a;
    } else {
      var init, last := b[..|b| - 1], b[|b| - 1];
      var ab := a + b;
      assert ab[..|ab| - 1] == a + init;
      assert ab[|ab| - 1] == last;
      PickAppend(a, init, r, v);
      var tail := if Matches(last, r) == v then [last] else [];
      assert Pick(ab, r, v) == Pick(a + init, r, v) + tail;
      assert Pick(b, r, v) == Pick(init, r, v) + tail;
    }
  }

  /** Replaying a selection backwards is selecting from the history read oldest first. */
  lemma {:induction false} ReverseOfPick(h: seq<Msg>, r: Rule, v: bool)
    ensures Reverse(Pick(h, r, v)) == Pick(Reverse(h), r, v)
  {
    if h != [] {
      var init, last := h[..|h| - 1], h[|h| - 1];
      ReverseOfPick(init, r, v);
      var tail := if Matches(last, r) == v then [last] else [];
      var p := Pick(init, r, v) + tail;
      assert Pick(h, r, v) == p;
      assert Reverse(p) == tail + Reverse(Pick(init, r, v)) by {
        if tail == [] {
          assert p == Pick(init, r, v);
        } else {
          assert p[..|p| - 1] == Pick(init, r, v);
        }
      }
      assert Reverse(h) == [last] + Reverse(init);
      PickAppend([last], Reverse(init), r, v);
      assert [last][..0] == [];
      assert Pick([last], r, v) == tail;
    }
  }

  lemma {:induction false} PickDistinct(s: seq<Msg>, r: Rule, b: bool)
    requires Distinct(s)
    ensures Distinct(Pick(s, r, b))
  {
    if s != [] {
      var init := s[..|s| - 1];
      PickDistinct(init, r, b);
      PickMembers(init, r, b);
      LastIdIsNew(s);
      var p := Pick(s, r, b);
      forall i, j | 0 <= i < j < |p| ensures p[i].id != p[j].id {
        if j == |p| - 1 && Matches(s[|s| - 1], r) == b {
          assert p[i] in Pick(init, r, b);
        }
      }
    }
  }

  lemma ReverseDistinct(s: seq<Msg>)
    requires Distinct(s)
    ensures Distinct(Reverse(s))
  {
    var t := Reverse(s);
    forall i, j | 0 <= i < j < |t| ensures t[i].id != t[j].id {
      ReverseAt(s, i);
      ReverseAt(s, j);
    }
  }

  lemma {:induction false} ReverseAt(s: seq<Msg>, k: nat)
    requires k < |s|
    ensures Reverse(s)[k] == s[|s| - 1 - k]
  {
    if k > 0 {
      ReverseAt(s[..|s| - 1], k - 1);
    }
  }
}
