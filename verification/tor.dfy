/** Circuit isolation: which token each CONNECT gets. */
module Tor {
  import opened Common

  /** Opaque; all that matters is which tokens are equal. */
  datatype IsolationToken = IsolationToken(serial: nat)

  datatype Isolation = Shared | PerUpstream | PerQuery

  /** The token of a CONNECT and the map that it leaves, when
      `IsolationToken::new` would return `minted`. */
  datatype Resolved = Resolved(token: IsolationToken, perUpstream: map<string, IsolationToken>, usedMinted: bool)

  function Resolve(policy: Isolation, default: IsolationToken, known: map<string, IsolationToken>,
                   user: Option<string>, minted: IsolationToken): Resolved
  {
    match policy
    case Shared => Resolved(default, known, false)
    case PerQuery => Resolved(minted, known, true)
    case PerUpstream =>
      match user
      case None => Resolved(default, known, false)
      case Some(u) =>
        if u in known then Resolved(known[u], known, false)
        else Resolved(minted, known[u := minted], true)
  }

  /** `IsolationToken::new`: never the same token twice. */
  class TokenMint {
    var next: nat

    ghost function Issued(): iset<IsolationToken>
      reads this
    {
      iset t: IsolationToken | t.serial < next
    }

    constructor ()
      ensures next == 0
    {
      next := 0;
    }

    method New() returns (t: IsolationToken)
      modifies this
      ensures t !in old(Issued()) && Issued() == old(Issued()) + iset{t}
      ensures t == IsolationToken(old(next)) && next == old(next) + 1
    {
      t := IsolationToken(next);
      next := next + 1;
    }
  }

  class TorManager {
    const isolation: Isolation
    const defaultToken: IsolationToken
    const mint: TokenMint
    var perUpstream: map<string, IsolationToken>

    /** Every token held was issued, the default one to nobody else, and no two
        usernames hold the same one. */
    ghost predicate Valid()
      reads this, mint
    {
      && defaultToken in mint.Issued()
      && (forall u | u in perUpstream :: perUpstream[u] in mint.Issued() && perUpstream[u] != defaultToken)
      && (forall u, v | u in perUpstream && v in perUpstream && perUpstream[u] == perUpstream[v] :: u == v)
    }

    constructor (isolation: Isolation, mint: TokenMint)
      modifies mint
      ensures Valid() && perUpstream == map[]
      ensures this.isolation == isolation && this.mint == mint && defaultToken !in old(mint.Issued())
    {
      var t := mint.New();
      this.isolation := isolation;
      this.mint := mint;
      this.defaultToken := t;
      this.perUpstream := map[];
    }

    method IsolationTokenFor(user: Option<string>) returns (t: IsolationToken)
      requires Valid()
      modifies this, mint
      ensures Valid()
      ensures var r := Resolve(isolation, defaultToken, old(perUpstream), user, IsolationToken(old(mint.next)));
              && t == r.token && perUpstream == r.perUpstream
              && mint.next == old(mint.next) + if r.usedMinted then 1 else 0
      ensures t in mint.Issued()
    {
      match isolation {
        case Shared => t := defaultToken;
        case PerQuery => t := mint.New();
        case PerUpstream =>
          match user {
            case None => t := defaultToken;
            case Some(u) =>
              if u !in perUpstream {
                var minted := mint.New();
                perUpstream := perUpstream[u := minted];
              }
              t := perUpstream[u];
          }
      }
    }
  }
}
