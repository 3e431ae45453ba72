/** The window counter as the program keeps it: logs pruned in place, fixed windows rolled over
    by whoever looks first. Each method is proved to compute its function in RateWindow. */
module WindowCounters {
  import opened RateWindow

  class WindowCounter {
    const rule: Rule
    /** The token and the rule number this counter was made for; no two live counters share both. */
    ghost const tag: (string, nat)

    var requests: seq<int>
    var tokens: seq<TokenEntry>
    var fixedStart: int
    var fixedRequests: int
    var fixedTokens: int

    function State(): Window
      reads this
    {
      Window(requests, tokens, fixedStart, fixedRequests, fixedTokens)
    }

    constructor (rule: Rule, ghost tag: (string, nat))
      ensures State() == FRESH && this.rule == rule && this.tag == tag
    {
      this.rule := rule;
      this.tag := tag;
      requests, tokens := [], [];
      fixedStart, fixedRequests, fixedTokens := 0, 0, 0;
    }

    method CountRequests(now: int) returns (count: int)
      modifies this
      ensures State() == Counted(old(State()), rule, now)
      ensures count == RequestCount(old(State()), rule, now)
    {
      if rule.strategy == "fixed" {
        count := CountFixedRequests(now);
      } else {
        count := CountSlidingRequests(now);
      }
    }

    method CountTokens(now: int) returns (count: int)
      modifies this
      ensures State() == Counted(old(State()), rule, now)
      ensures count == TokenCount(old(State()), rule, now)
    {
      if rule.strategy == "fixed" {
        count := CountFixedTokens(now);
      } else {
        count := CountSlidingTokens(now);
      }
    }

    method CountSlidingRequests(now: int) returns (count: int)
      ensures count == |Recent(requests, now - rule.duration)|
    {
      var cutoff := now - rule.duration;
      count := 0;
      for i := 0 to |requests|
        invariant count == |Recent(requests[..i], cutoff)|
      {
        assert requests[..i + 1][..i] == requests[..i];
        if requests[i] > cutoff {
          count := count + 1;
        }
      }
      assert requests[..|requests|] == requests;
    }

    method CountSlidingTokens(now: int) returns (count: int)
      ensures count == Total(RecentTokens(tokens, now - rule.duration))
    {
      var cutoff := now - rule.duration;
      count := 0;
      for i := 0 to |tokens|
        invariant count == Total(RecentTokens(tokens[..i], cutoff))
      {
        assert tokens[..i + 1] == tokens[..i] + [tokens[i]];
        RecentTokensAppend(tokens[..i], tokens[i], cutoff);
        if tokens[i].t > cutoff {
          TotalAppend(RecentTokens(tokens[..i], cutoff), tokens[i]);
          count := count + tokens[i].count;
        }
      }
      assert tokens[..|tokens|] == tokens;
    }

    method CountFixedRequests(now: int) returns (count: int)
      modifies this
      ensures State() == Roll(old(State()), rule, now) && count == fixedRequests
    {
      if Sub(now, fixedStart) >= rule.duration {
        fixedStart := now;
        fixedRequests := 0;
        fixedTokens := 0;
      }
      count := fixedRequests;
    }

    method CountFixedTokens(now: int) returns (count: int)
      modifies this
      ensures State() == Roll(old(State()), rule, now) && count == fixedTokens
    {
      if Sub(now, fixedStart) >= rule.duration {
        fixedStart := now;
        fixedRequests := 0;
        fixedTokens := 0;
      }
      count := fixedTokens;
    }

    /** Pruning writes the kept entries to the front of the very log it is reading. */
    method AddRequest(now: int)
      modifies this
      ensures State() == RateWindow.AddRequest(old(State()), rule, now)
    {
      if rule.strategy == "fixed" {
        fixedRequests := fixedRequests + 1;
        return;
      }
      requests := requests + [now];
      var cutoff := now - rule.duration;
      ghost var full := requests;
      var kept := 0;
      for i := 0 to |requests|
        invariant kept <= i && |requests| == |full|
        invariant requests[..kept] == Recent(full[..i], cutoff)
        invariant requests[i..] == full[i..]
        invariant fixedStart == old(fixedStart) && fixedRequests == old(fixedRequests) && fixedTokens == old(fixedTokens)
        invariant tokens == old(tokens)
      {
        assert full[..i + 1][..i] == full[..i];
        assert requests[i] == requests[i..][0] == full[i];
        assert requests[i + 1..] == requests[i..][1..] == full[i + 1..];
        if requests[i] > cutoff {
          ghost var before := requests;
          requests := requests[kept := requests[i]];
          assert requests[..kept + 1] == before[..kept] + [full[i]];
          assert requests[i + 1..] == before[i + 1..];
          kept := kept + 1;
        }
      }
      requests := requests[..kept];
      assert full[..|full|] == full;
    }

    method AddTokens(now: int, n: int)
      modifies this
      ensures State() == RateWindow.AddTokens(old(State()), rule, now, n)
    {
      if rule.strategy == "fixed" {
        if Sub(now, fixedStart) >= rule.duration {
          fixedStart := now;
          fixedRequests := 0;
          fixedTokens := 0;
        }
        fixedTokens := fixedTokens + n;
        return;
      }
      tokens := tokens + [TokenEntry(now, n)];
      PruneTokens(now - rule.duration);
    }

    /** Compacts the log in place. */
    method PruneTokens(cutoff: int)
      modifies this`tokens
      ensures tokens == RecentTokens(old(tokens), cutoff)
    {
      ghost var full := tokens;
      var kept := 0;
      for i := 0 to |tokens|
        invariant kept <= i && |tokens| == |full|
        invariant tokens[..kept] == RecentTokens(full[..i], cutoff)
        invariant tokens[i..] == full[i..]
      {
        assert full[..i + 1][..i] == full[..i];
        assert tokens[i] == tokens[i..][0] == full[i];
        assert tokens[i + 1..] == tokens[i..][1..] == full[i + 1..];
        if tokens[i].t > cutoff {
          ghost var before := tokens;
          tokens := tokens[kept := tokens[i]];
          assert tokens[..kept + 1] == before[..kept] + [full[i]];
          assert tokens[i + 1..] == before[i + 1..];
          kept := kept + 1;
        }
      }
      tokens := tokens[..kept];
      assert full[..|full|] == full;
    }
  }

  lemma {:induction false} TotalAppend(log: seq<TokenEntry>, e: TokenEntry)
    ensures Total(log + [e]) == Total(log) + e.count
  {
    assert (log + [e])[..|log + [e]| - 1] == log;
  }
}
