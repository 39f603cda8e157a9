/**
  The two sides of one interface agree: what a requiring module's typed
  outbound call sends is what a providing module's dispatcher decodes, and
  what the provider answers on success decodes back to the handler's value.
 */
module Interop {
  import Json
  import opened Everestrs
  import KvsInterface
  import RsExample
  import RsExampleUser

  /** `KvsClient::delete` sends exactly the bag that the KVS dispatcher
      decodes as `delete(key)`; if the runtime relays a provider's successful
      answer, the client sees `Ok(())`. */
  lemma KvsClientDeleteMatchesProvider<S>(c: RsExample.KvsClient, remote: Remote, key: string,
                                          svc: KvsInterface.KvsService<S>, st: S)
    requires var sent := RsExample.KvsClientDelete(c, remote, key).sent;
             KvsInterface.HandleCommand(svc, st, sent.name, sent.value.fields).1 == Ok(Reply(remote, c.rawPublisher, sent))
    ensures var sent := RsExample.KvsClientDelete(c, remote, key).sent;
            KvsInterface.DecodeCommand(sent.name, sent.value.fields) == Ok(KvsInterface.Delete(key))
    ensures RsExample.KvsClientDelete(c, remote, key).result == Ok(())
  {
  }

  /** `ExamplePublisher::uses_something` sends exactly the bag that
      `foobar::handle_command` decodes; if the runtime relays the provider's
      successful answer, the caller gets the provider handler's bool. */
  lemma UsesSomethingMatchesProvider<S>(p: RsExampleUser.ExamplePublisher, remote: Remote, key: string,
                                        svc: RsExample.ExampleService<S>, st: S)
    requires var sent := RsExampleUser.UsesSomething(p, remote, key).sent;
             RsExample.FoobarHandleCommand(svc, st, sent.name, sent.value.fields).1 == Ok(Reply(remote, p.runtime, sent))
    ensures var sent := RsExampleUser.UsesSomething(p, remote, key).sent;
            RsExample.DecodeFoobarCommand(sent.name, sent.value.fields) == Ok(key)
    ensures svc.usesSomethingCmd(st, key).1.Ok?
    ensures RsExampleUser.UsesSomething(p, remote, key).result == Ok(svc.usesSomethingCmd(st, key).1.value)
  {
  }

  /** `FoobarPublisher::publish_max_current` publishes exactly what a
      requiring module's `example_interface::handle_variable` accepts: the
      subscriber runs once with the published number and the notification
      succeeds. */
  lemma PublishReachesSubscriber<S>(p: RsExample.FoobarPublisher, maxCurrent: int, m: RsExampleUser.Module<S>, st: S)
    ensures var sent := RsExample.PublishMaxCurrent(p, maxCurrent).sent;
            && RsExampleUser.ExampleHandleVariable(m.publisher, m.theirExample, st, sent.name, sent.value)
               == (m.theirExample.onMaxCurrent(st, m.publisher, maxCurrent), Ok(()))
            && RsExampleUser.HandleVariable(m, st, "their_example", sent.name, sent.value)
               == (m.theirExample.onMaxCurrent(st, m.publisher, maxCurrent), Ok(()))
  {
  }
}
