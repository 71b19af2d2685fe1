/** A signing page with no browser behind it. Its one faithful property: a signature names
    the visitor cookie of the jar the page was OPENED with. */
module FakePage {
  import opened Text
  import opened Dicts
  import opened Options

  datatype Platform = Douyin | TikTok

  datatype Plan = Plan(url: string, query: string, userAgent: string, body: string)

  function Name(platform: Platform): string
  {
    if platform.Douyin? then "douyin" else "tiktok"
  }

  function SignatureField(platform: Platform): string
  {
    if platform.Douyin? then "a_bogus" else "x_bogus"
  }

  /** What an open page answers; `hash` stands for the SHA-256 prefix of a given length. */
  function Signature(hash: (string, nat) -> string, platform: Platform, jar: seq<Entry>, plan: Plan)
    : map<string, string>
  {
    var covered := [plan.query, plan.userAgent] + (if plan.body == "" then [] else [plan.body]);
    var signed := map[
      SignatureField(platform) := hash(Join(["sign", Name(platform)] + covered, '|'), 32),
      "ms_token" := hash(Join(["mstoken", Name(platform), plan.url], '|'), 48)];
    var cookies := AsMap(jar);
    if "s_v_web_id" in cookies && cookies["s_v_web_id"] != "" && platform.Douyin?
    then signed["verifyFp" := cookies["s_v_web_id"]]
    else signed
  }

  /** What a signature is made of, field by field: each platform its own field name, over the
      query, the user agent and a body when there is one; and nothing else is answered. */
  lemma SignatureCovers(hash: (string, nat) -> string, platform: Platform, jar: seq<Entry>, plan: Plan)
    ensures var signed := Signature(hash, platform, jar, plan);
      var name := if platform.Douyin? then "douyin" else "tiktok";
      var field := if platform.Douyin? then "a_bogus" else "x_bogus";
      && signed.Keys - {"verifyFp"} == {field, "ms_token"}
      && signed[field] == hash(
           "sign|" + name + "|" + plan.query + "|" + plan.userAgent
             + (if plan.body == "" then "" else "|" + plan.body), 32)
      && signed["ms_token"] == hash("mstoken|" + name + "|" + plan.url, 48)
  {
    SignedText(Name(platform), plan);
    TokenText(Name(platform), plan);
  }

  lemma SignedText(name: string, plan: Plan)
    ensures var covered := [plan.query, plan.userAgent] + (if plan.body == "" then [] else [plan.body]);
      Join(["sign", name] + covered, '|') ==
        "sign|" + name + "|" + plan.query + "|" + plan.userAgent + (if plan.body == "" then "" else "|" + plan.body)
  {
    var tail := if plan.body == "" then [] else [plan.body];
    JoinTwo(plan.query, plan.userAgent, tail);
    var covered := [plan.query, plan.userAgent] + tail;
    JoinMore("sign", name, covered);
    assert "sign" + ['|'] + name + ['|'] + Join(covered, '|') ==
      "sign|" + name + "|" + plan.query + "|" + plan.userAgent + (if plan.body == "" then "" else "|" + plan.body);
  }

  lemma TokenText(name: string, plan: Plan)
    ensures Join(["mstoken", name, plan.url], '|') == "mstoken|" + name + "|" + plan.url
  {
    JoinMore("mstoken", name, [plan.url]);
    assert ["mstoken", name] + [plan.url] == ["mstoken", name, plan.url];
    assert "mstoken" + ['|'] + name + ['|'] + plan.url == "mstoken|" + name + "|" + plan.url;
  }

  lemma JoinTwo(a: string, b: string, tail: seq<string>)
    requires |tail| <= 1
    ensures Join([a, b] + tail, '|') == a + ['|'] + b + (if tail == [] then "" else ['|'] + tail[0])
  {
    var parts := [a, b] + tail;
    if tail == [] {
      assert parts == [a, b] && parts[1..] == [b];
    } else {
      assert parts == [a, b, tail[0]] && parts[1..] == [b, tail[0]] && [b, tail[0]][1..] == [tail[0]];
      assert Join([b, tail[0]], '|') == b + ['|'] + tail[0];
      assert a + ['|'] + (b + ['|'] + tail[0]) == a + ['|'] + b + (['|'] + tail[0]);
    }
  }

  lemma JoinMore(a: string, b: string, parts: seq<string>)
    requires parts != []
    ensures Join([a, b] + parts, '|') == a + ['|'] + b + ['|'] + Join(parts, '|')
  {
    assert ([a, b] + parts)[1..] == [b] + parts && ([b] + parts)[1..] == parts;
  }

  /** The visitor a signature names is the jar's own, on the platform that sends one. */
  lemma NamesOwnVisitor(hash: (string, nat) -> string, platform: Platform, jar: seq<Entry>, plan: Plan)
    ensures var signed := Signature(hash, platform, jar, plan);
      && ("verifyFp" in signed <==>
          platform.Douyin? && "s_v_web_id" in AsMap(jar) && AsMap(jar)["s_v_web_id"] != "")
      && ("verifyFp" in signed ==> signed["verifyFp"] == AsMap(jar)["s_v_web_id"])
  {
  }

  class FakeSigningContext {
    const platform: Platform
    const cookies: seq<Entry>
    var closed: bool

    constructor (platform: Platform, cookies: seq<Entry>)
      ensures this.platform == platform && this.cookies == cookies && !closed
    {
      this.platform, this.cookies, closed := platform, cookies, false;
    }

    /** `None` is the backend failure a closed context raises. */
    method Sign(hash: (string, nat) -> string, plan: Plan) returns (signed: Option<map<string, string>>)
      ensures signed == if closed then None else Some(Signature(hash, platform, cookies, plan))
    {
      if closed {
        return None;
      }
      var covered := [plan.query, plan.userAgent];
      if plan.body != "" {
        covered := covered + [plan.body];
      }
      assert covered == [plan.query, plan.userAgent] + (if plan.body == "" then [] else [plan.body]);
      var answer := map[
        SignatureField(platform) := hash(Join(["sign", Name(platform)] + covered, '|'), 32),
        "ms_token" := hash(Join(["mstoken", Name(platform), plan.url], '|'), 48)];
      var jar := AsMap(cookies);
      if "s_v_web_id" in jar && jar["s_v_web_id"] != "" && platform.Douyin? {
        answer := answer["verifyFp" := jar["s_v_web_id"]];
      }
      return Some(answer);
    }

    method Close()
      modifies this
      ensures closed
    {
      closed := true;
    }
  }
}
