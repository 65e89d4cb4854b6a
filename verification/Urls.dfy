/**
 Service URLs as create_service_struct prints them, and the one way to read them back.
 */
module Urls {

  /** secure stands for secure_device == HPD_SECURE_DEVICE. */
  datatype Device = Device(dtype: string, id: string, secure: bool)

  /** obj tells apart service structures that carry the same four keys. */
  datatype Service = Service(device: Device, stype: string, sid: string, obj: nat)

  datatype Key = Key(dtype: string, did: string, stype: string, sid: string)

  function KeyOf(s: Service): Key {
    Key(s.device.dtype, s.device.id, s.stype, s.sid)
  }

  function KeyUrl(k: Key): string {
    "/" + k.dtype + "/" + k.did + "/" + k.stype + "/" + k.sid
  }

  /** value_url */
  function Url(s: Service): string {
    KeyUrl(KeyOf(s))
  }

  /** No '/' in the device type, the device ID and the service type; the service ID may hold any. */
  predicate Plain(k: Key) {
    '/' !in k.dtype && '/' !in k.did && '/' !in k.stype
  }

  /** s up to its first '/', and what follows it. */
  function Before(s: string): string {
    if s == "" || s[0] == '/' then "" else [s[0]] + Before(s[1..])
  }

  function After(s: string): string {
    if s == "" then "" else if s[0] == '/' then s[1..] else After(s[1..])
  }

  /** The four parts of a URL, cut at its first four slashes. */
  function Parse(url: string): Key {
    var r1 := After(url);
    var r2 := After(r1);
    var r3 := After(r2);
    Key(Before(r1), Before(r2), Before(r3), After(r3))
  }

  lemma {:induction false} CutAtSlash(a: string, b: string)
    requires '/' !in a
    ensures Before(a + "/" + b) == a && After(a + "/" + b) == b
  {
    var s := a + "/" + b;
    if a == "" {
      assert s == "/" + b;
    } else {
      assert s[0] == a[0] && s[1..] == a[1..] + "/" + b;
      CutAtSlash(a[1..], b);
    }
  }

  /** Reading a printed URL gives back the four keys. */
  lemma ParseUrl(k: Key)
    requires Plain(k)
    ensures Parse(KeyUrl(k)) == k
  {
    var r3 := k.stype + "/" + k.sid;
    var r2 := k.did + "/" + r3;
    var r1 := k.dtype + "/" + r2;
    assert KeyUrl(k) == "" + "/" + r1;
    CutAtSlash("", r1);
    CutAtSlash(k.dtype, r2);
    CutAtSlash(k.did, r3);
    CutAtSlash(k.stype, k.sid);
  }

  lemma {:induction false} CutOnce(s: string)
    ensures '/' !in Before(s) && ('/' in s ==> s == Before(s) + "/" + After(s))
  {
    if s != "" && s[0] != '/' {
      var c, t := [s[0]], s[1..];
      assert s == c + t && Before(s) == c + Before(t) && After(s) == After(t);
      CutOnce(t);
      hide Before, After;
      if '/' in s {
        Prefix(c, Before(t), After(t));
      }
    }
  }

  lemma Prefix(c: string, a: string, b: string)
    ensures c + (a + "/" + b) == c + a + "/" + b
  {
  }

  function Slashes(s: string): nat {
    if s == "" then 0 else (if s[0] == '/' then 1 else 0) + Slashes(s[1..])
  }

  lemma {:induction false} SlashesOf(a: string, b: string)
    ensures Slashes(a + b) == Slashes(a) + Slashes(b)
  {
    if a == "" {
      assert a + b == b;
    } else {
      assert (a + b)[1..] == a[1..] + b;
      SlashesOf(a[1..], b);
    }
  }

  /** Each cut uses up one slash. */
  lemma {:induction false} CutSlashes(s: string)
    ensures '/' in s <==> Slashes(s) > 0
    ensures Slashes(s) > 0 ==> Slashes(After(s)) == Slashes(s) - 1
  {
    if s != "" {
      assert s == [s[0]] + s[1..];
      CutSlashes(s[1..]);
    }
  }

  /** A string with three slashes can be cut three times, and printed together again. */
  lemma {:induction false} CutThrice(s: string)
    requires Slashes(s) >= 3
    ensures var r2 := After(s);
            var r3 := After(r2);
            && '/' !in Before(s) && '/' !in Before(r2) && '/' !in Before(r3)
            && s == Before(s) + "/" + (Before(r2) + "/" + (Before(r3) + "/" + After(r3)))
  {
    hide Slashes, Before, After;
    CutSlashes(s);
    CutSlashes(After(s));
    CutSlashes(After(After(s)));
    CutOnce(s);
    CutOnce(After(s));
    CutOnce(After(After(s)));
  }

  lemma KeyUrlParts(k: Key)
    ensures KeyUrl(k) == "" + "/" + (k.dtype + "/" + (k.did + "/" + (k.stype + "/" + k.sid)))
  {
  }

  lemma KeyUrlSlashes(k: Key)
    ensures Slashes(After(KeyUrl(k))) >= 3
  {
    var r3 := k.stype + "/" + k.sid;
    var r2 := k.did + "/" + r3;
    var r1 := k.dtype + "/" + r2;
    KeyUrlParts(k);
    CutAtSlash("", r1);
    hide KeyUrl, After;
    SlashesOf(k.stype + "/", k.sid);
    SlashesOf(k.stype, "/");
    SlashesOf(k.did + "/", r3);
    SlashesOf(k.did, "/");
    SlashesOf(k.dtype + "/", r2);
    SlashesOf(k.dtype, "/");
    assert Slashes("/") == 1;
  }

  /** The keys read off a URL are plain and print that URL again, whatever keys it was printed from. */
  lemma Reprint(k: Key)
    ensures Plain(Parse(KeyUrl(k))) && KeyUrl(Parse(KeyUrl(k))) == KeyUrl(k)
  {
    var r1 := After(KeyUrl(k));
    KeyUrlParts(k);
    CutAtSlash("", k.dtype + "/" + (k.did + "/" + (k.stype + "/" + k.sid)));
    KeyUrlSlashes(k);
    CutThrice(r1);
    KeyUrlParts(Parse(KeyUrl(k)));
    hide KeyUrl, Before, After, Slashes;
  }

  /** Reading a printed URL gives back the keys exactly when they are plain. */
  lemma ParseUrlIff(k: Key)
    ensures Parse(KeyUrl(k)) == k <==> Plain(k)
  {
    Reprint(k);
    if Plain(k) {
      ParseUrl(k);
    }
  }

  /** Two plain keys never share a URL; every other key shares its URL with a plain one. */
  lemma SharesUrlIff(k: Key)
    ensures (exists k' :: k' != k && Plain(k') && KeyUrl(k') == KeyUrl(k)) <==> !Plain(k)
  {
    Reprint(k);
    ParseUrlIff(k);
    if k' :| Plain(k) && k' != k && Plain(k') && KeyUrl(k') == KeyUrl(k) {
      ParseUrlIff(k');
    }
  }

  /** URLs are equal exactly when they read back as the same keys, which for plain keys are their own. */
  lemma UrlInjective(s: Service, t: Service)
    ensures Url(s) == Url(t) <==> Parse(Url(s)) == Parse(Url(t))
    ensures Plain(KeyOf(s)) && Plain(KeyOf(t)) ==> (Url(s) == Url(t) <==> KeyOf(s) == KeyOf(t))
    ensures KeyOf(s) != KeyOf(t) && Url(s) == Url(t) ==> !Plain(KeyOf(s)) || !Plain(KeyOf(t))
  {
    Reprint(KeyOf(s));
    Reprint(KeyOf(t));
    ParseUrlIff(KeyOf(s));
    ParseUrlIff(KeyOf(t));
  }

  /** The service with plain keys that s shares its URL with. */
  function Twin(s: Service): Service {
    var k := Parse(Url(s));
    Service(Device(k.dtype, k.did, s.device.secure), k.stype, k.sid, s.obj)
  }

  /** A slash in a device type, device ID or service type lets a service share its URL with its twin. */
  lemma SlashCollides(s: Service)
    ensures Plain(KeyOf(Twin(s))) && Url(Twin(s)) == Url(s) && Twin(s).device.secure == s.device.secure
    ensures KeyOf(Twin(s)) != KeyOf(s) <==> !Plain(KeyOf(s))
  {
    Reprint(KeyOf(s));
    ParseUrlIff(KeyOf(s));
  }
}
