/** The script events the plugin subscribes to (StudioPlugin::getSubscribedEvents). */
module Events {

  const PreUpdateCmd: string := "pre-update-cmd"
  const PostUpdateCmd: string := "post-update-cmd"
  const PostInstallCmd: string := "post-install-cmd"
  const PreAutoloadDump: string := "pre-autoload-dump"

  const Symlink: string := "symlinkStudioPackages"
  const Unlink: string := "unlinkStudioPackages"

  /** The keys an array literal writes. */
  function KeysOf(entries: seq<(string, string)>): set<string>
    decreases |entries|
  {
    if entries == [] then {} else KeysOf(entries[..|entries| - 1]) + {entries[|entries| - 1].0}
  }

  /** A PHP array literal with string keys, written entry by entry: a key written twice keeps
      the value written last. */
  function ArrayLiteral(entries: seq<(string, string)>): (r: map<string, string>)
    ensures r.Keys == KeysOf(entries)
    decreases |entries|
  {
    if entries == [] then map[]
    else
      var last := entries[|entries| - 1];
      ArrayLiteral(entries[..|entries| - 1])[last.0 := last.1]
  }

  /** Every value of the literal was written for its key. */
  lemma {:induction false} ArrayLiteralValueWritten(entries: seq<(string, string)>, k: string)
    requires k in ArrayLiteral(entries)
    ensures (k, ArrayLiteral(entries)[k]) in entries
    decreases |entries|
  {
    var n := |entries|;
    var prefix := entries[..n - 1];
    var last := entries[n - 1];
    assert ArrayLiteral(entries) == ArrayLiteral(prefix)[last.0 := last.1];
    if k != last.0 {
      ArrayLiteralValueWritten(prefix, k);
      var j :| 0 <= j < |prefix| && prefix[j] == (k, ArrayLiteral(prefix)[k]);
      assert entries[j] == prefix[j];
    }
  }

  /** The entry written last for a key decides its value. */
  lemma {:induction false} ArrayLiteralLastWins(entries: seq<(string, string)>, i: nat)
    requires i < |entries|
    requires forall j :: i < j < |entries| ==> entries[j].0 != entries[i].0
    ensures entries[i].0 in ArrayLiteral(entries) && ArrayLiteral(entries)[entries[i].0] == entries[i].1
    decreases |entries|
  {
    var n := |entries|;
    var prefix := entries[..n - 1];
    var last := entries[n - 1];
    assert ArrayLiteral(entries) == ArrayLiteral(prefix)[last.0 := last.1];
    if i < n - 1 {
      assert last.0 != entries[i].0;
      assert prefix[i] == entries[i];
      forall j | i < j < |prefix| ensures prefix[j].0 != prefix[i].0 {
        assert prefix[j] == entries[j];
      }
      ArrayLiteralLastWins(prefix, i);
    }
  }

  /** The literal as written, with `post-update-cmd` listed twice. */
  const Subscriptions: seq<(string, string)> := [
    (PostUpdateCmd, Symlink),
    (PreUpdateCmd, Unlink),
    (PostUpdateCmd, Symlink),
    (PostInstallCmd, Symlink),
    (PreAutoloadDump, Symlink)
  ]

  /** getSubscribedEvents. */
  function SubscribedEvents(): map<string, string> {
    ArrayLiteral(Subscriptions)
  }

  /** Links are removed before an update, and made again after an update, after an install
      and before the autoloader is dumped; no other event is handled. */
  lemma SubscribedHandlers()
    ensures var r := SubscribedEvents();
            && r.Keys == {PreUpdateCmd, PostUpdateCmd, PostInstallCmd, PreAutoloadDump}
            && r[PreUpdateCmd] == Unlink
            && r[PostUpdateCmd] == Symlink && r[PostInstallCmd] == Symlink && r[PreAutoloadDump] == Symlink
  {
    var r := SubscribedEvents();
    assert r[PreUpdateCmd] == Unlink by {
      ArrayLiteralLastWins(Subscriptions, 1);
    }
    assert r[PostUpdateCmd] == Symlink by {
      ArrayLiteralLastWins(Subscriptions, 2);
    }
    assert r[PostInstallCmd] == Symlink by {
      ArrayLiteralLastWins(Subscriptions, 3);
    }
    assert r[PreAutoloadDump] == Symlink by {
      ArrayLiteralLastWins(Subscriptions, 4);
    }
    forall k | k in r ensures k in {PreUpdateCmd, PostUpdateCmd, PostInstallCmd, PreAutoloadDump} {
      ArrayLiteralValueWritten(Subscriptions, k);
    }
  }
}
